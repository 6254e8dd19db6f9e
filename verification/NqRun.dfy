/**
 * Two NetQuake channel ends over a network that loses, duplicates and reorders datagrams: reliable
 * messages arrive whole, exactly once and in order, until one of 8000 bytes or more ends the connection.
 */
module NqRun {
  import opened Msg
  import opened Netchan
  import opened NqNetchan

  datatype NqEnd = NqEnd(
    chan: NqChan,
    out: set<NqPacket>,            // every packet this end has sent
    queued: seq<seq<Byte>>,        // reliable messages this end has begun to send
    delivered: seq<seq<Byte>>)     // reliable messages this end has reassembled

  datatype NqNet = NqNet(a: NqEnd, b: NqEnd)

  datatype NqAction =
    | NqWrite(data: seq<Byte>)
    | NqSend(data: seq<Byte>)
    | NqReceive(packet: NqPacket)

  datatype NqStep = NqStep(atA: bool, action: NqAction)

  // ---------- Steps ----------

  function Elements(s: seq<NqPacket>): set<NqPacket> {
    set i | 0 <= i < |s| :: s[i]
  }

  function NqSendFrom(e: NqEnd, data: seq<Byte>): NqEnd
    requires e.chan.start <= |e.chan.reliable|
  {
    e.(chan := AfterNqTransmit(e.chan, data),
       out := e.out + Elements(NqPackets(e.chan, data)),
       queued := if NqLoads(e.chan) then e.queued + [e.chan.message] else e.queued)
  }

  function NqReceiveAt(e: NqEnd, p: NqPacket): NqEnd {
    NqEnd(AfterNqProcess(e.chan, p),
          if p.Data? then e.out + {Ack(p.sequence)} else e.out,
          e.queued,
          if Completes(e.chan, p) then e.delivered + [e.chan.fragment + p.payload] else e.delivered)
  }

  /** Data is collected while there is room in the message buffer, which is larger than what can arrive. */
  function NqAct(e: NqEnd, incoming: set<NqPacket>, action: NqAction): NqEnd
    requires e.chan.start <= |e.chan.reliable|
  {
    match action
    case NqWrite(data) =>
      if |e.chan.message| + |data| <= MAX_MSGLEN
      then e.(chan := e.chan.(message := e.chan.message + data)) else e
    case NqSend(data) => NqSendFrom(e, data)
    case NqReceive(p) => if p in incoming then NqReceiveAt(e, p) else e
  }

  // ---------- The invariant of one direction ----------

  /** The receiver has taken the fragment the sender still repeats. */
  predicate Ahead(s: NqEnd, r: NqEnd) {
    r.chan.incomingReliableSequence == s.chan.reliableSequence + 1
  }

  predicate Fits(m: seq<Byte>) {
    |m| < MAX_NQMSGLEN
  }

  ghost predicate Oversized(ms: seq<seq<Byte>>) {
    exists i :: 0 <= i < |ms| && !Fits(ms[i])
  }

  lemma OversizedMore(ms: seq<seq<Byte>>, m: seq<Byte>)
    ensures Oversized(ms + [m]) <==> Oversized(ms) || !Fits(m)
  {
    var more := ms + [m];
    if i :| 0 <= i < |ms| && !Fits(ms[i]) {
      assert !Fits(more[i]);
    }
    assert more[|ms|] == m;
  }

  /** What the receiver has of the messages sent, while the connection lasts. */
  ghost predicate NqDelivers(s: NqEnd, r: NqEnd)
    requires s.chan.start <= |s.chan.reliable|
  {
    && (forall i :: 0 <= i < |r.delivered| ==> Fits(r.delivered[i]))
    && (s.chan.reliable == [] ==> r.delivered == s.queued && r.chan.fragment == [])
    && (s.chan.reliable != [] && !Ahead(s, r) ==>
          s.queued != [] && r.delivered == s.queued[..|s.queued| - 1]
          && r.chan.fragment == s.chan.reliable[..s.chan.start])
    && (s.chan.reliable != [] && Ahead(s, r) ==>
          && s.queued != [] && FragmentEnd(s.chan) < MAX_NQMSGLEN
          && if FragmentEnd(s.chan) == |s.chan.reliable|
             then r.delivered == s.queued && r.chan.fragment == []
             else r.delivered == s.queued[..|s.queued| - 1]
                  && r.chan.fragment == s.chan.reliable[..FragmentEnd(s.chan)])
  }

  ghost predicate NqProgress(s: NqEnd, r: NqEnd) {
    && (s.chan.reliable == [] ==> s.chan.start == 0 && !Ahead(s, r))
    && (s.chan.reliable != [] ==> s.chan.start < |s.chan.reliable|)
    && |s.chan.reliable| <= MAX_MSGLEN && |s.chan.message| <= MAX_MSGLEN
    && (s.chan.reliable != [] ==> s.queued != [] && s.chan.reliable == s.queued[|s.queued| - 1])
    && (Ahead(s, r) || r.chan.incomingReliableSequence == s.chan.reliableSequence)
    && (!r.chan.drop ==> NqDelivers(s, r))
    && (r.chan.drop ==> Oversized(s.queued))
  }

  ghost predicate NqPacketOk(s: NqEnd, r: NqEnd, p: NqPacket)
    requires s.chan.start <= |s.chan.reliable|
  {
    p.Data? ==>
      && p.sequence <= s.chan.reliableSequence
      && (p.sequence == s.chan.reliableSequence ==> s.chan.reliable != [] && p == Fragment(s.chan))
  }

  ghost predicate NqLinked(s: NqEnd, r: NqEnd) {
    && NqProgress(s, r)
    && (forall p :: p in s.out ==> NqPacketOk(s, r, p))
    && (forall p :: p in r.out && p.Ack? ==> p.sequence < r.chan.incomingReliableSequence)
  }

  ghost predicate NqInv(net: NqNet) {
    NqLinked(net.a, net.b) && NqLinked(net.b, net.a)
  }

  // ---------- Each step keeps it ----------

  lemma NqSenderSends(s: NqEnd, r: NqEnd, data: seq<Byte>)
    requires NqLinked(s, r)
    ensures NqLinked(NqSendFrom(s, data), r)
  {
    hide Oversized;
    var t := NqSendFrom(s, data);
    OversizedMore(s.queued, s.chan.message);
    assert NqProgress(t, r);
    forall p | p in t.out
      ensures NqPacketOk(t, r, p)
    {
      if p in s.out {
        assert NqPacketOk(s, r, p);
      }
    }
  }

  lemma NqReceiverSends(s: NqEnd, r: NqEnd, data: seq<Byte>)
    requires NqLinked(s, r) && r.chan.start <= |r.chan.reliable|
    ensures NqLinked(s, NqSendFrom(r, data))
  {
    hide Oversized;
    var q := NqSendFrom(r, data);
    assert NqProgress(s, q);
    forall p | p in s.out
      ensures NqPacketOk(s, q, p)
    {
      assert NqPacketOk(s, r, p);
    }
  }

  lemma NqReceiverReceives(s: NqEnd, r: NqEnd, p: NqPacket)
    requires NqLinked(s, r) && p in s.out
    requires p.Ack? ==> p.sequence < s.chan.incomingReliableSequence
    ensures NqLinked(s, NqReceiveAt(r, p))
  {
    hide Oversized;
    var q := NqReceiveAt(r, p);
    assert NqPacketOk(s, r, p);
    if p.Data? && p.sequence == r.chan.incomingReliableSequence {
      var c := s.chan;
      assert p == Fragment(c);
      assert c.reliable[..c.start] + c.reliable[c.start..FragmentEnd(c)] == c.reliable[..FragmentEnd(c)];
      assert c.reliable[..|c.reliable|] == c.reliable;
      assert s.queued == s.queued[..|s.queued| - 1] + [c.reliable];
      assert q.chan.drop && !r.chan.drop ==> !Fits(c.reliable);
      OversizedMore(s.queued[..|s.queued| - 1], c.reliable);
    }
    assert NqProgress(s, q);
    forall x | x in s.out
      ensures NqPacketOk(s, q, x)
    {
      assert NqPacketOk(s, r, x);
    }
  }

  lemma NqSenderReceives(s: NqEnd, r: NqEnd, p: NqPacket)
    requires NqLinked(s, r) && p in r.out
    ensures NqLinked(NqReceiveAt(s, p), r)
  {
    hide Oversized;
    var t := NqReceiveAt(s, p);
    assert NqProgress(t, r);
    forall x | x in t.out
      ensures NqPacketOk(t, r, x)
    {
      if x in s.out {
        assert NqPacketOk(s, r, x);
      }
    }
  }

  lemma NqActKeepsInv(e: NqEnd, peer: NqEnd, action: NqAction)
    requires NqLinked(e, peer) && NqLinked(peer, e)
    ensures NqLinked(NqAct(e, peer.out, action), peer) && NqLinked(peer, NqAct(e, peer.out, action))
  {
    var f := NqAct(e, peer.out, action);
    match action
    case NqWrite(_) =>
      assert forall p :: p in e.out && NqPacketOk(e, peer, p) ==> NqPacketOk(f, peer, p);
      assert forall p :: p in peer.out && NqPacketOk(peer, e, p) ==> NqPacketOk(peer, f, p);
    case NqSend(data) =>
      NqSenderSends(e, peer, data);
      NqReceiverSends(peer, e, data);
    case NqReceive(p) =>
      if p in peer.out {
        NqSenderReceives(e, peer, p);
        NqReceiverReceives(peer, e, p);
      }
  }

  // ---------- Runs ----------

  function NqApply(net: NqNet, step: NqStep): NqNet
    requires net.a.chan.start <= |net.a.chan.reliable| && net.b.chan.start <= |net.b.chan.reliable|
  {
    if step.atA then NqNet(NqAct(net.a, net.b.out, step.action), net.b)
    else NqNet(net.a, NqAct(net.b, net.a.out, step.action))
  }

  function NqStart(): NqNet {
    NqNet(NqEnd(NqFresh(), {}, [], []), NqEnd(NqFresh(), {}, [], []))
  }

  /** A sequence of states in which each follows from the one before by some step. */
  ghost predicate NqExecution(nets: seq<NqNet>) {
    && nets != [] && nets[0] == NqStart()
    && forall i :: 0 <= i < |nets| - 1 ==> NqFollows(nets[i], nets[i + 1])
  }

  ghost predicate NqFollows(net: NqNet, next: NqNet) {
    && net.a.chan.start <= |net.a.chan.reliable| && net.b.chan.start <= |net.b.chan.reliable|
    && exists step :: next == NqApply(net, step)
  }

  lemma {:induction false} NqExecutionKeepsInv(nets: seq<NqNet>, n: nat)
    requires NqExecution(nets) && n < |nets|
    ensures NqInv(nets[n])
  {
    if n > 0 {
      NqExecutionKeepsInv(nets, n - 1);
      var net, next := nets[n - 1], nets[n - 1 + 1];
      assert NqFollows(net, next);
      var step :| next == NqApply(net, step);
      if step.atA {
        NqActKeepsInv(net.a, net.b, step.action);
      } else {
        NqActKeepsInv(net.b, net.a, step.action);
      }
    }
  }

  /** What one end has of the messages the other has begun to send. */
  ghost predicate NqArrived(s: NqEnd, r: NqEnd) {
    && s.chan.reliableSequence <= r.chan.incomingReliableSequence <= s.chan.reliableSequence + 1
    && (!r.chan.drop ==>
          && r.delivered <= s.queued && |s.queued| <= |r.delivered| + 1
          && (s.chan.reliable == [] ==> r.delivered == s.queued))
    && (r.chan.drop ==> Oversized(s.queued))
    && (s.chan.reliable == [] ==> (r.chan.drop <==> Oversized(s.queued)))
  }

  /**
   * In every state of every execution the sequence numbers of sender and receiver differ by at most one, and
   * each end that is not dropped has reassembled a prefix of the messages the other end has begun to send,
   * byte for byte, with at most one message outstanding.  An end is dropped only for a message of 8000 bytes
   * or more, and always by the time that one is acknowledged.
   */
  lemma NqReliableDelivery(nets: seq<NqNet>, n: nat)
    requires NqExecution(nets) && n < |nets|
    ensures NqArrived(nets[n].a, nets[n].b) && NqArrived(nets[n].b, nets[n].a)
  {
    NqExecutionKeepsInv(nets, n);
    NqLinkedArrived(nets[n].a, nets[n].b);
    NqLinkedArrived(nets[n].b, nets[n].a);
  }

  lemma NqLinkedArrived(s: NqEnd, r: NqEnd)
    requires NqLinked(s, r)
    ensures NqArrived(s, r)
  {
    if !r.chan.drop && s.chan.reliable == [] {
      assert forall i :: 0 <= i < |s.queued| ==> s.queued[i] == r.delivered[i];
    }
  }

  /** One round trip that arrives moves the sender on to the next fragment or message. */
  lemma NqRoundTripAdvances(s: NqEnd, r: NqEnd)
    requires NqLinked(s, r) && s.chan.reliable != []
    ensures var t := NqSendFrom(s, []); var p := Fragment(s.chan); var q := NqReceiveAt(r, p);
            && p in t.out && Ack(p.sequence) in q.out
            && NqReceiveAt(t, Ack(p.sequence)).chan.reliableSequence == s.chan.reliableSequence + 1
            && (FragmentEnd(s.chan) == |s.chan.reliable| ==>
                  (!q.chan.drop ==> q.delivered == s.queued) && NqReceiveAt(t, Ack(p.sequence)).chan.reliable == [])
  {
    NqSenderSends(s, r, []);
    var t := NqSendFrom(s, []);
    assert NqPackets(s.chan, [])[0] == Fragment(s.chan);
    NqReceiverReceives(t, r, Fragment(s.chan));
  }

  // ---------- The size limit ----------

  ghost function Last(nets: seq<NqNet>): NqNet
    requires nets != []
  {
    nets[|nets| - 1]
  }

  lemma OneStep(nets: seq<NqNet>, step: NqStep) returns (more: seq<NqNet>)
    requires NqExecution(nets)
    ensures Last(nets).a.chan.start <= |Last(nets).a.chan.reliable|
    ensures Last(nets).b.chan.start <= |Last(nets).b.chan.reliable|
    ensures NqExecution(more) && Last(more) == NqApply(Last(nets), step)
  {
    NqExecutionKeepsInv(nets, |nets| - 1);
    var next := NqApply(Last(nets), step);
    more := nets + [next];
    assert NqFollows(Last(nets), next);
    forall i | 0 <= i < |more| - 1
      ensures NqFollows(more[i], more[i + 1])
    {
      if i < |nets| - 1 {
        assert NqFollows(nets[i], nets[i + 1]);
      }
    }
  }

  /** A fragment goes out, arrives, and is acknowledged. */
  lemma OneFragment(nets: seq<NqNet>) returns (more: seq<NqNet>)
    requires NqExecution(nets) && Last(nets).a.chan.reliable != []
    ensures NqExecution(more) && Last(more).a.queued == Last(nets).a.queued
    ensures var c, d := Last(nets).a.chan, Last(more).a.chan;
            d.reliable == [] || (d.reliable == c.reliable && d.start == c.start + MAX_NQDATAGRAM)
  {
    var net := Last(nets);
    LastLinked(nets);
    hide NqExecution, NqLinked;
    NqRoundTripAdvances(net.a, net.b);
    var p := Fragment(net.a.chan);
    more := OneStep(nets, NqStep(true, NqSend([])));
    more := OneStep(more, NqStep(false, NqReceive(p)));
    more := OneStep(more, NqStep(true, NqReceive(Ack(p.sequence))));
  }

  lemma LastLinked(nets: seq<NqNet>)
    requires NqExecution(nets)
    ensures var net := Last(nets);
            && NqLinked(net.a, net.b) && net.a.chan.start <= |net.a.chan.reliable|
            && (net.a.chan.reliable != [] ==> net.a.chan.start < |net.a.chan.reliable|)
  {
    NqExecutionKeepsInv(nets, |nets| - 1);
  }

  lemma {:induction false} AllFragments(nets: seq<NqNet>) returns (more: seq<NqNet>)
    requires NqExecution(nets)
    ensures NqExecution(more) && Last(more).a.queued == Last(nets).a.queued && Last(more).a.chan.reliable == []
    decreases |Last(nets).a.chan.reliable| - Last(nets).a.chan.start
  {
    hide NqFollows, NqLinked;
    more := nets;
    LastLinked(nets);
    if Last(nets).a.chan.reliable != [] {
      more := OneFragment(nets);
      more := AllFragments(more);
    }
  }

  /**
   * In an execution without loss, the receiver drops the connection if and only if the message has 8000 bytes
   * or more, which the message buffer takes up to 8192; a shorter one is delivered whole.
   */
  lemma NqSizeLimit(m: seq<Byte>) returns (nets: seq<NqNet>)
    requires 0 < |m| <= MAX_MSGLEN
    ensures NqExecution(nets)
    ensures var net := Last(nets);
            && net.a.queued == [m] && net.a.chan.reliable == []
            && (net.b.chan.drop <==> |m| >= MAX_NQMSGLEN)
            && (|m| < MAX_NQMSGLEN ==> net.b.delivered == [m])
  {
    nets := [NqStart()];
    nets := OneStep(nets, NqStep(true, NqWrite(m)));
    assert [] + m == m;
    nets := OneStep(nets, NqStep(true, NqSend([])));
    assert Last(nets).a.queued == [m];
    nets := AllFragments(nets);
    NqReliableDelivery(nets, |nets| - 1);
    assert !Fits([m][0]) <==> |m| >= MAX_NQMSGLEN;
  }
}
