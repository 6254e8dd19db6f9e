/**
 * One end of a QuakeWorld network channel (fteqtv/netchan.c): an alternating-bit protocol for
 * reliable data, carried on datagrams that also hold unreliable data.
 *
 * `Chan` is the protocol state as a value, with one function per operation.  Class `NetChan` is the
 * implementation over buffers and datagram bytes; its methods are specified by those functions.
 */
module Netchan {
  import opened Msg

  const MAX_NQMSGLEN: nat := 8000
  /** The size of the messages of a viewer. */
  const MAX_QWMSGLEN: nat := 1450
  const PACKET_HEADER: nat := 8
  /** Size of the buffer a datagram is assembled in. */
  const SEND_BUFFER: nat := MAX_NQMSGLEN + PACKET_HEADER

  datatype Chan = Chan(
    isclient: bool,
    qport: nat,
    message: seq<Byte>,      // reliable data being collected
    reliable: seq<Byte>,     // reliable data waiting for its acknowledgement, empty when there is none
    incomingAcknowledged: nat,
    lastReliableSequence: nat,
    incomingReliableAcknowledged: bool,
    incomingReliableSequence: bool,
    reliableSequence: bool,
    incomingSequence: nat,
    outgoingSequence: nat)

  datatype Packet = Packet(
    sequence: nat,
    hasReliable: bool,
    acknowledged: nat,
    reliableAcknowledged: bool,
    reliable: seq<Byte>,
    unreliable: seq<Byte>)

  function Fresh(isclient: bool, qport: nat): Chan {
    Chan(isclient, qport, [], [], 0, 0, false, false, false, 0, 0)
  }

  // ---------- Sending ----------

  /** The remote side has seen later packets and still shows the wrong parity. */
  predicate Resends(c: Chan) {
    c.incomingAcknowledged > c.lastReliableSequence && c.incomingReliableAcknowledged != c.reliableSequence
  }

  predicate Loads(c: Chan) {
    c.reliable == [] && c.message != []
  }

  predicate SendsReliable(c: Chan) {
    Resends(c) || Loads(c)
  }

  /** Moves the collected data into the empty reliable buffer and flips its parity. */
  function Load(c: Chan): Chan {
    if Loads(c) then c.(reliable := c.message, message := [], reliableSequence := !c.reliableSequence) else c
  }

  function HeaderSize(isclient: bool): nat {
    if isclient then PACKET_HEADER + 2 else PACKET_HEADER
  }

  /** A block that does not fit the datagram is left out of it. */
  function Fitting(used: nat, block: seq<Byte>): seq<Byte> {
    if used + |block| <= SEND_BUFFER then block else []
  }

  function TransmitPacket(c: Chan, data: seq<Byte>): Packet {
    var reliable := if SendsReliable(c) then Fitting(HeaderSize(c.isclient), Load(c).reliable) else [];
    Packet(c.outgoingSequence, SendsReliable(c), c.incomingSequence, c.incomingReliableSequence,
           reliable, Fitting(HeaderSize(c.isclient) + |reliable|, data))
  }

  function AfterTransmit(c: Chan): Chan {
    var d := Load(c).(outgoingSequence := c.outgoingSequence + 1);
    if SendsReliable(c) then d.(lastReliableSequence := d.outgoingSequence) else d
  }

  // ---------- Receiving ----------

  predicate Accepts(c: Chan, p: Packet) {
    p.sequence > c.incomingSequence
  }

  /** The state after an accepted packet; stale and duplicated packets change nothing. */
  function AfterProcess(c: Chan, p: Packet): Chan {
    if !Accepts(c, p) then c else
      c.(reliable := if p.reliableAcknowledged == c.reliableSequence then [] else c.reliable,
         incomingSequence := p.sequence,
         incomingAcknowledged := p.acknowledged,
         incomingReliableAcknowledged := p.reliableAcknowledged,
         incomingReliableSequence := if p.hasReliable then !c.incomingReliableSequence
                                     else c.incomingReliableSequence)
  }

  // ---------- The datagram ----------

  /** A sequence number with a flag in the top bit of its 32-bit word. */
  function Flagged(n: nat, flag: bool): nat {
    if flag then n + 0x8000_0000 else n
  }

  function TopBit(w: nat): bool {
    w >= 0x8000_0000
  }

  function LowBits(w: nat): nat {
    if TopBit(w) then w - 0x8000_0000 else w
  }

  function Wire(p: Packet, isclient: bool, qport: nat): seq<Byte> {
    Long(Flagged(p.sequence, p.hasReliable)) + Long(Flagged(p.acknowledged, p.reliableAcknowledged))
    + (if isclient then Short(qport) else []) + p.reliable + p.unreliable
  }

  /** The port number leads the body only when the sender is the client. */
  function Body(wire: seq<Byte>, fromClient: bool): seq<Byte> {
    var body := RestLong(RestLong(wire));
    if fromClient then RestShort(body) else body
  }

  function WirePort(wire: seq<Byte>): nat {
    GetShort(RestLong(RestLong(wire)))
  }

  /**
   * What the receiver makes of a datagram.  It cannot tell the reliable from the unreliable part of
   * the body, so all of it is reported as one.
   */
  function Parse(wire: seq<Byte>, fromClient: bool): Packet {
    var w1, w2 := GetLong(wire), GetLong(RestLong(wire));
    Packet(LowBits(w1), TopBit(w1), LowBits(w2), TopBit(w2), [], Body(wire, fromClient))
  }

  /** The receiver recovers every header field and the concatenated payload. */
  lemma WireRoundTrip(p: Packet, isclient: bool, qport: nat)
    requires p.sequence < 0x8000_0000 && p.acknowledged < 0x8000_0000
    ensures Parse(Wire(p, isclient, qport), isclient)
            == p.(reliable := [], unreliable := p.reliable + p.unreliable)
    ensures isclient ==> WirePort(Wire(p, isclient, qport)) == qport % 0x1_0000
  {
    hide Short, Long, GetShort, GetLong, RestShort, RestLong;
    var w1, w2 := Flagged(p.sequence, p.hasReliable), Flagged(p.acknowledged, p.reliableAcknowledged);
    var payload := p.reliable + p.unreliable;
    var tail := (if isclient then Short(qport) else []) + payload;
    assert Wire(p, isclient, qport) == Long(w1) + (Long(w2) + tail);
    LongRoundTrip(w1, Long(w2) + tail);
    LongRoundTrip(w2, tail);
    if isclient {
      ShortRoundTrip(qport, payload);
    } else {
      assert tail == payload;
    }
  }

  /**
   * What the receiver gets of a datagram: the sequence numbers, and a body of the reliable block, if one is sent
   * and has room, and the unreliable data, if it has room after that. The block is the payload under way, or
   * what was collected. A viewer's blocks and data always have room.
   */
  lemma DatagramArrives(c: Chan, data: seq<Byte>)
    requires c.outgoingSequence < 0x8000_0000 && c.incomingSequence < 0x8000_0000
    ensures var p := Parse(Wire(TransmitPacket(c, data), c.isclient, c.qport), c.isclient);
            var room := if c.isclient then 7998 else 8000;
            var block := if !SendsReliable(c) then [] else if c.reliable == [] then c.message else c.reliable;
            var sent := if |block| <= room then block else [];
            && p.sequence == c.outgoingSequence && p.hasReliable == SendsReliable(c)
            && p.acknowledged == c.incomingSequence && p.reliableAcknowledged == c.incomingReliableSequence
            && p.unreliable == sent + (if |sent| + |data| <= room then data else [])
            && (|c.message| <= MAX_QWMSGLEN && |c.reliable| <= MAX_QWMSGLEN && |data| <= MAX_QWMSGLEN
                ==> p.unreliable == block + data)
  {
    hide Wire, Parse;
    WireRoundTrip(TransmitPacket(c, data), c.isclient, c.qport);
  }

  // ---------- The implementation ----------

  class NetChan {
    const isclient: bool
    const qport: nat
    const message: NetMsg
    const reliableBuf: array<Byte>
    var reliableLength: nat
    var overflowed: bool
    var drop: bool
    var incomingAcknowledged: nat
    var lastReliableSequence: nat
    var incomingReliableAcknowledged: bool
    var incomingReliableSequence: bool
    var reliableSequence: bool
    var incomingSequence: nat
    var outgoingSequence: nat

    ghost predicate Valid()
      reads this, message
    {
      && message.Valid()
      && message.data != reliableBuf
      && message.data.Length == reliableBuf.Length == MAX_MSGLEN
      && reliableLength <= MAX_MSGLEN
    }

    ghost function View(): (c: Chan)
      requires Valid()
      reads this, message, message.data, reliableBuf
    {
      Chan(isclient, qport, message.Contents(), reliableBuf[..reliableLength], incomingAcknowledged,
           lastReliableSequence, incomingReliableAcknowledged, incomingReliableSequence, reliableSequence,
           incomingSequence, outgoingSequence)
    }

    /** Netchan_Setup: everything zero, the whole message buffer available. */
    constructor (isclient: bool, qport: nat)
      ensures Valid() && fresh(message) && fresh(message.data) && fresh(reliableBuf)
      ensures View() == Fresh(isclient, qport) && !drop && !overflowed && message.maxsize == MAX_MSGLEN
    {
      this.isclient, this.qport := isclient, qport;
      message := new NetMsg(MAX_MSGLEN);
      reliableBuf := new Byte[MAX_MSGLEN];
      reliableLength, overflowed, drop := 0, false, false;
      incomingAcknowledged, lastReliableSequence := 0, 0;
      incomingReliableAcknowledged, incomingReliableSequence, reliableSequence := false, false, false;
      incomingSequence, outgoingSequence := 0, 0;
    }

    method LoadMessage() returns (loaded: bool)
      requires Valid()
      modifies this`reliableLength, this`reliableSequence, message`cursize, reliableBuf
      ensures Valid() && View() == Load(old(View())) && loaded == Loads(old(View()))
    {
      loaded := reliableLength == 0 && message.cursize != 0;
      if loaded {
        for i := 0 to message.cursize
          invariant message.cursize == old(message.cursize) && message.Valid()
          invariant reliableBuf[..i] == old(message.data[..message.cursize])[..i]
          invariant message.data[..message.cursize] == old(message.data[..message.cursize])
          invariant reliableSequence == old(reliableSequence)
        {
          reliableBuf[i] := message.data[i];
        }
        reliableLength := message.cursize;
        message.cursize := 0;
        reliableSequence := !reliableSequence;
      }
    }

    /** Assembles header, port, reliable block and unreliable block in a datagram buffer. */
    method Datagram(w1: nat, w2: nat, sendReliable: bool, data: seq<Byte>) returns (wire: seq<Byte>)
      requires Valid()
      ensures var reliable := if sendReliable then Fitting(HeaderSize(isclient), View().reliable) else [];
              wire == Long(w1) + Long(w2) + (if isclient then Short(qport) else []) + reliable
                      + Fitting(HeaderSize(isclient) + |reliable|, data)
    {
      hide Short, Long;
      var send := new NetMsg(SEND_BUFFER);
      send.WriteLong(w1);
      send.WriteLong(w2);
      if isclient {
        send.WriteShort(qport);
      }
      ghost var head := send.Contents();
      assert head == Long(w1) + Long(w2) + (if isclient then Short(qport) else []);
      ghost var reliable := [];
      if sendReliable {
        reliable := Fitting(HeaderSize(isclient), reliableBuf[..reliableLength]);
        send.WriteData(reliableBuf[..reliableLength]);
      }
      assert send.Contents() == head + reliable;
      if send.maxsize - send.cursize >= |data| {
        send.WriteData(data);
      }
      wire := send.data[..send.cursize];
    }

    /**
     * Netchan_Transmit: the bytes handed to the network, or nothing when the collected reliable data
     * overflowed.  Bandwidth accounting is not modelled.
     */
    method Transmit(data: seq<Byte>) returns (sent: bool, wire: seq<Byte>)
      requires Valid()
      modifies this, message`cursize, reliableBuf
      ensures Valid() && sent == !old(overflowed) && overflowed == old(overflowed)
      ensures drop == (old(drop) || !sent)
      ensures View() == if sent then AfterTransmit(old(View())) else old(View())
      ensures sent ==> wire == Wire(TransmitPacket(old(View()), data), isclient, qport)
    {
      hide Short, Long, Fitting;
      if overflowed {
        drop := true;
        return false, [];
      }
      ghost var was := View();
      var sendReliable := false;
      if incomingAcknowledged > lastReliableSequence && incomingReliableAcknowledged != reliableSequence {
        sendReliable := true;
      }
      var loaded := LoadMessage();
      if loaded {
        sendReliable := true;
      }
      assert sendReliable == SendsReliable(was) && View() == Load(was);
      sent := true;
      wire := Datagram(Flagged(outgoingSequence, sendReliable),
                       Flagged(incomingSequence, incomingReliableSequence), sendReliable, data);
      outgoingSequence := outgoingSequence + 1;
      if sendReliable {
        lastReliableSequence := outgoingSequence;
      }
    }

    method ReadHeader(msg: NetMsg) returns (w1: nat, w2: nat, portOk: bool)
      requires msg.Valid()
      modifies msg`readpos
      ensures var wire := msg.Contents();
              && w1 == GetLong(wire) && w2 == GetLong(RestLong(wire))
              && portOk == (!isclient ==> WirePort(wire) == qport)
              && msg.Unread() == Body(wire, !isclient)
    {
      hide GetShort, GetLong, RestShort, RestLong;
      msg.readpos := 0;
      assert msg.Unread() == msg.Contents();
      w1 := msg.ReadLong();
      w2 := msg.ReadLong();
      portOk := true;
      if !isclient {
        var port := msg.ReadShort();
        portOk := qport == port;
      }
    }

    /**
     * Netchan_Process.  `ok` tells the caller to execute the payload that is left unread in `msg`.
     * Datagrams from a client with a foreign port number are ignored.
     */
    method Process(msg: NetMsg) returns (ok: bool)
      requires Valid() && msg.Valid() && msg != message
      modifies this, msg`readpos
      ensures Valid() && drop == old(drop) && overflowed == old(overflowed)
      ensures var wire := msg.Contents(); var p := Parse(wire, !isclient);
              && ok == ((!isclient ==> WirePort(wire) == qport) && Accepts(old(View()), p))
              && View() == (if ok then AfterProcess(old(View()), p) else old(View()))
              && (ok ==> msg.Unread() == Body(wire, !isclient))
    {
      hide GetLong, RestLong, Body, WirePort, TopBit, LowBits;
      var w1, w2, portOk := ReadHeader(msg);
      if !portOk {
        return false;
      }
      var reliableMessage, reliableAck := TopBit(w1), TopBit(w2);
      var sequence, sequenceAck := LowBits(w1), LowBits(w2);
      if sequence <= incomingSequence {
        return false;
      }
      if reliableAck == reliableSequence {
        reliableLength := 0;
      }
      incomingSequence := sequence;
      incomingAcknowledged := sequenceAck;
      incomingReliableAcknowledged := reliableAck;
      if reliableMessage {
        incomingReliableSequence := !incomingReliableSequence;
      }
      ok := true;
    }
  }
}
