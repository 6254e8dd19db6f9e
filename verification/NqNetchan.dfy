/**
 * The NetQuake branch of the network channel (fteqtv/netchan.c): reliable messages go out in
 * fragments of at most 1024 bytes, one at a time, each repeated with every transmit until its
 * acknowledgement arrives.
 */
module NqNetchan {
  import opened Msg
  import opened Netchan

  const MAX_NQDATAGRAM: nat := 1024
  const NETFLAG_DATA: nat := 0x1_0000
  const NETFLAG_ACK: nat := 0x2_0000
  const NETFLAG_EOM: nat := 0x8_0000
  const NETFLAG_UNRELIABLE: nat := 0x10_0000

  datatype NqChan = NqChan(
    message: seq<Byte>,
    reliable: seq<Byte>,            // the message being sent, empty when there is none
    start: nat,                     // where its current fragment begins
    reliableSequence: nat,
    outgoingUnreliable: nat,
    incomingReliableSequence: nat,
    incomingUnreliable: nat,
    fragment: seq<Byte>,            // what has arrived of the message being received
    drop: bool)

  datatype NqPacket =
    | Data(sequence: nat, payload: seq<Byte>, eom: bool)
    | Ack(sequence: nat)
    | Unreliable(sequence: nat, payload: seq<Byte>)

  function NqFresh(): NqChan {
    NqChan([], [], 0, 0, 0, 0, 0, [], false)
  }

  // ---------- Sending ----------

  predicate NqLoads(c: NqChan) {
    c.reliable == [] && c.message != []
  }

  function NqLoad(c: NqChan): NqChan {
    if NqLoads(c) then c.(reliable := c.message, start := 0, message := []) else c
  }

  function FragmentEnd(c: NqChan): nat {
    if c.start + MAX_NQDATAGRAM < |c.reliable| then c.start + MAX_NQDATAGRAM else |c.reliable|
  }

  /** The fragment that is sent until it is acknowledged. */
  function Fragment(c: NqChan): NqPacket
    requires c.start <= |c.reliable|
  {
    Data(c.reliableSequence, c.reliable[c.start..FragmentEnd(c)], FragmentEnd(c) == |c.reliable|)
  }

  /** Netchan_Transmit: the packets that leave, and the state afterwards. */
  function NqPackets(c: NqChan, data: seq<Byte>): seq<NqPacket>
    requires c.start <= |c.reliable|
  {
    var d := NqLoad(c);
    (if d.start < |d.reliable| then [Fragment(d)] else [])
    + (if data == [] then []
       else [Unreliable(c.outgoingUnreliable, if |data| <= MAX_NQMSGLEN then data else [])])
  }

  function AfterNqTransmit(c: NqChan, data: seq<Byte>): NqChan {
    if data == [] then NqLoad(c) else NqLoad(c).(outgoingUnreliable := c.outgoingUnreliable + 1)
  }

  // ---------- Receiving ----------

  function AfterAck(c: NqChan, sequence: nat): NqChan {
    if sequence != c.reliableSequence then c else
      var start := c.start + MAX_NQDATAGRAM;
      var d := c.(reliableSequence := c.reliableSequence + 1);
      if start >= |c.reliable| then d.(reliable := [], start := 0) else d.(start := start)
  }

  /** The received message is complete with this fragment. */
  predicate Completes(c: NqChan, p: NqPacket) {
    && p.Data? && p.eom
    && p.sequence == c.incomingReliableSequence
    && |c.fragment| + |p.payload| < MAX_NQMSGLEN
  }

  function AfterData(c: NqChan, p: NqPacket): NqChan
    requires p.Data?
  {
    if p.sequence != c.incomingReliableSequence then c else
      var d := c.(incomingReliableSequence := c.incomingReliableSequence + 1);
      if |c.fragment| + |p.payload| >= MAX_NQMSGLEN then d.(drop := true)
      else d.(fragment := if p.eom then [] else c.fragment + p.payload)
  }

  function AfterNqProcess(c: NqChan, p: NqPacket): NqChan {
    match p
    case Ack(sequence) => AfterAck(c, sequence)
    case Unreliable(sequence, _) => if sequence < c.incomingUnreliable then c else c.(incomingUnreliable := sequence)
    case Data(_, _, _) => AfterData(c, p)
  }

  // ---------- The datagram ----------

  function BigShort(n: nat): (s: seq<Byte>)
    ensures |s| == 2
  {
    [n / 0x100 % 0x100, n % 0x100]
  }

  function GetBigShort(s: seq<Byte>): (n: nat)
    ensures n < 0x1_0000
  {
    First(Rest(s)) + 0x100 * First(s)
  }

  /** A 32-bit value with its most significant byte first. */
  function Big(n: nat): (s: seq<Byte>)
    ensures |s| == 4
  {
    BigShort(n / 0x1_0000) + BigShort(n)
  }

  /** What SwapLong makes of a little-endian read. */
  function GetBig(s: seq<Byte>): (n: nat)
    ensures n < 0x1_0000_0000
  {
    GetBigShort(RestShort(s)) + 0x1_0000 * GetBigShort(s)
  }

  lemma BigShortRoundTrip(n: nat, rest: seq<Byte>)
    ensures GetBigShort(BigShort(n) + rest) == n % 0x1_0000 && RestShort(BigShort(n) + rest) == rest
  {
    var s := BigShort(n) + rest;
    assert s[0] == BigShort(n)[0] && Rest(s)[0] == BigShort(n)[1];
    assert Rest(Rest(s)) == rest;
  }

  lemma BigRoundTrip(n: nat, rest: seq<Byte>)
    ensures GetBig(Big(n) + rest) == n % 0x1_0000_0000 && RestLong(Big(n) + rest) == rest
  {
    hide BigShort, GetBigShort, RestShort;
    var tail := BigShort(n) + rest;
    assert Big(n) + rest == BigShort(n / 0x1_0000) + tail;
    BigShortRoundTrip(n / 0x1_0000, tail);
    BigShortRoundTrip(n, rest);
  }

  function Flags(p: NqPacket): nat {
    match p
    case Ack(_) => NETFLAG_ACK
    case Unreliable(_, _) => NETFLAG_UNRELIABLE
    case Data(_, _, eom) => if eom then NETFLAG_DATA + NETFLAG_EOM else NETFLAG_DATA
  }

  function Payload(p: NqPacket): seq<Byte> {
    if p.Ack? then [] else p.payload
  }

  function NqWire(p: NqPacket): seq<Byte> {
    Big(Flags(p) + 8 + |Payload(p)|) + Big(p.sequence) + Payload(p)
  }

  predicate HasFlag(header: nat, flag: nat)
    requires flag > 0
  {
    header / flag % 2 == 1
  }

  /** How NQNetchan_Process reads a datagram; `None` when it is ignored. */
  function NqParse(wire: seq<Byte>): Option<NqPacket> {
    var header, sequence, payload := GetBig(wire), GetBig(RestLong(wire)), RestLong(RestLong(wire));
    if |wire| != header % 0x1_0000 || HasFlag(header, 0x8000_0000) then None
    else if HasFlag(header, 0x2_0000) then Some(Ack(sequence))
    else if HasFlag(header, 0x10_0000) then Some(Unreliable(sequence, payload))
    else if HasFlag(header, 0x1_0000) then Some(Data(sequence, payload, HasFlag(header, 0x8_0000)))
    else None
  }

  lemma NqWireRoundTrip(p: NqPacket)
    requires p.sequence < 0x1_0000_0000 && |Payload(p)| <= MAX_NQMSGLEN
    ensures NqParse(NqWire(p)) == Some(p)
  {
    hide Big, GetBig, RestLong;
    var header := Flags(p) + 8 + |Payload(p)|;
    assert NqWire(p) == Big(header) + (Big(p.sequence) + Payload(p));
    BigRoundTrip(header, Big(p.sequence) + Payload(p));
    BigRoundTrip(p.sequence, Payload(p));
    assert |NqWire(p)| == 8 + |Payload(p)|;
  }

  /** The fragment that is due: the next 1024 bytes at most of the message under way, or of what was collected. */
  function Due(c: NqChan): Option<NqPacket>
    requires c.start <= |c.reliable|
  {
    var m, k := if c.reliable == [] then c.message else c.reliable, c.start;
    if k >= |m| then None
    else if k + 1024 < |m| then Some(Data(c.reliableSequence, m[k..k + 1024], false))
    else Some(Data(c.reliableSequence, m[k..], true))
  }

  lemma NqPacketsAre(c: NqChan, data: seq<Byte>)
    requires c.start <= |c.reliable|
    ensures NqPackets(c, data)
            == (if Due(c).Some? then [Due(c).value] else [])
               + (if data == [] then []
                  else [Unreliable(c.outgoingUnreliable, if |data| <= 8000 then data else [])])
  {
    var d := NqLoad(c);
    assert d.reliable[d.start..] == d.reliable[d.start..|d.reliable|];
  }

  /**
   * The datagrams of a transmission as the receiver reads them: the fragment that is due, and all of the unreliable
   * data in a datagram of its own, unless it exceeds one.
   */
  lemma NqDatagramsArrive(c: NqChan, data: seq<Byte>)
    requires c.start <= |c.reliable| && c.reliableSequence < 0x1_0000_0000 && c.outgoingUnreliable < 0x1_0000_0000
    ensures var ps := NqPackets(c, data);
            var fragments := if Due(c).Some? then [Due(c)] else [];
            var others := if data == [] then []
                          else [Some(Unreliable(c.outgoingUnreliable, if |data| <= 8000 then data else []))];
            && |ps| == |fragments + others|
            && forall i :: 0 <= i < |ps| ==> NqParse(NqWire(ps[i])) == (fragments + others)[i]
  {
    hide NqWire, NqParse, NqPackets;
    NqPacketsAre(c, data);
    var ps := NqPackets(c, data);
    forall i | 0 <= i < |ps|
      ensures NqParse(NqWire(ps[i])) == Some(ps[i])
    {
      NqWireRoundTrip(ps[i]);
    }
  }

  // ---------- The implementation ----------

  class NqNetChan {
    const message: NetMsg
    const reliableBuf: array<Byte>
    const fragmentBuf: array<Byte>
    var reliableLength: nat
    var reliableStart: nat
    var reliableSequence: nat
    var outgoingUnreliable: nat
    var incomingReliableSequence: nat
    var incomingUnreliable: nat
    var fragmentLength: nat
    var drop: bool

    ghost predicate Valid()
      reads this, message
    {
      && message.Valid()
      && message.data != reliableBuf && message.data != fragmentBuf && reliableBuf != fragmentBuf
      && message.data.Length == reliableBuf.Length == MAX_MSGLEN
      && fragmentBuf.Length == MAX_NQMSGLEN
      && reliableStart <= reliableLength <= MAX_MSGLEN
      && fragmentLength <= MAX_NQMSGLEN
    }

    ghost function View(): (c: NqChan)
      requires Valid()
      reads this, message, message.data, reliableBuf, fragmentBuf
    {
      NqChan(message.Contents(), reliableBuf[..reliableLength], reliableStart, reliableSequence,
             outgoingUnreliable, incomingReliableSequence, incomingUnreliable,
             fragmentBuf[..fragmentLength], drop)
    }

    constructor ()
      ensures Valid() && View() == NqFresh()
    {
      message := new NetMsg(MAX_MSGLEN);
      reliableBuf := new Byte[MAX_MSGLEN];
      fragmentBuf := new Byte[MAX_NQMSGLEN];
      reliableLength, reliableStart, reliableSequence, outgoingUnreliable := 0, 0, 0, 0;
      incomingReliableSequence, incomingUnreliable, fragmentLength, drop := 0, 0, 0, false;
    }

    /** Header, sequence number and block, with the length patched into the header at the end. */
    static method Datagram(flags: nat, sequence: nat, block: seq<Byte>) returns (wire: seq<Byte>)
      ensures var body := if |block| <= MAX_NQMSGLEN then block else [];
              wire == Big(flags + 8 + |body|) + Big(sequence) + body
    {
      hide Big, Long, Short;
      var send := new NetMsg(MAX_NQMSGLEN + PACKET_HEADER);
      send.WriteData(Big(0));
      send.WriteData(Big(sequence));
      send.WriteData(block);
      var body := send.data[4..send.cursize];
      wire := Big(flags + send.cursize) + body;
      assert body == send.Contents()[4..];
      assert body == Big(sequence) + (if |block| <= MAX_NQMSGLEN then block else []);
    }

    /** The datagram with the fragment that is due. */
    method DueDatagram() returns (wire: seq<Byte>)
      requires Valid() && reliableStart < reliableLength
      ensures wire == NqWire(Fragment(View()))
    {
      hide Big;
      var i := reliableLength - reliableStart;
      if i > MAX_NQDATAGRAM {
        i := MAX_NQDATAGRAM;
      }
      var flags := if reliableStart + i == reliableLength then NETFLAG_DATA + NETFLAG_EOM else NETFLAG_DATA;
      var block := reliableBuf[..reliableLength][reliableStart..reliableStart + i];
      assert block == View().reliable[reliableStart..reliableStart + i];
      wire := Datagram(flags, reliableSequence, block);
    }

    method LoadMessage()
      requires Valid()
      modifies this`reliableLength, this`reliableStart, message`cursize, reliableBuf
      ensures Valid() && View() == NqLoad(old(View()))
    {
      if reliableLength == 0 && message.cursize != 0 {
        for i := 0 to message.cursize
          invariant message.cursize == old(message.cursize) && message.Valid()
          invariant reliableBuf[..i] == old(message.data[..message.cursize])[..i]
          invariant message.data[..message.cursize] == old(message.data[..message.cursize])
          invariant fragmentBuf[..] == old(fragmentBuf[..])
        {
          reliableBuf[i] := message.data[i];
        }
        reliableLength := message.cursize;
        reliableStart := 0;
        message.cursize := 0;
      }
    }

    method Transmit(data: seq<Byte>) returns (wires: seq<seq<Byte>>)
      requires Valid()
      modifies this, message`cursize, reliableBuf
      ensures Valid() && View() == AfterNqTransmit(old(View()), data)
      ensures var packets := NqPackets(old(View()), data);
              |wires| == |packets| && forall i :: 0 <= i < |wires| ==> wires[i] == NqWire(packets[i])
    {
      hide Big;
      LoadMessage();
      wires := [];
      if reliableLength - reliableStart > 0 {
        var wire := DueDatagram();
        wires := [wire];
      }
      if |data| != 0 {
        var wire := Datagram(NETFLAG_UNRELIABLE, outgoingUnreliable, data);
        outgoingUnreliable := outgoingUnreliable + 1;
        wires := wires + [wire];
      }
    }

    method HandleAck(sequence: nat)
      requires Valid()
      modifies this`reliableStart, this`reliableLength, this`reliableSequence
      ensures Valid() && View() == AfterAck(old(View()), sequence)
    {
      if sequence == reliableSequence {
        reliableStart := reliableStart + MAX_NQDATAGRAM;
        if reliableStart >= reliableLength {
          reliableLength := 0;
          reliableStart := 0;
        }
        reliableSequence := reliableSequence + 1;
      }
    }

    /** `complete` and `whole` report a finished message to the caller. */
    method HandleData(p: NqPacket) returns (complete: bool, whole: seq<Byte>)
      requires Valid() && p.Data?
      modifies this`incomingReliableSequence, this`fragmentLength, this`drop, fragmentBuf
      ensures Valid() && View() == AfterData(old(View()), p)
      ensures complete == Completes(old(View()), p)
      ensures complete ==> whole == old(View()).fragment + p.payload
    {
      ghost var was := fragmentBuf[..fragmentLength];
      complete, whole := false, [];
      if p.sequence == incomingReliableSequence {
        incomingReliableSequence := incomingReliableSequence + 1;
        if fragmentLength + |p.payload| >= fragmentBuf.Length {
          drop := true;
          return;
        }
        for i := 0 to |p.payload|
          invariant Valid() && fragmentLength == old(fragmentLength) && drop == old(drop)
          invariant incomingReliableSequence == old(incomingReliableSequence) + 1
          invariant fragmentBuf[..fragmentLength] == was
          invariant fragmentBuf[fragmentLength..fragmentLength + i] == p.payload[..i]
          invariant reliableBuf[..reliableLength] == old(reliableBuf[..reliableLength])
          invariant message.Contents() == old(message.Contents())
        {
          fragmentBuf[fragmentLength + i] := p.payload[i];
        }
        assert fragmentBuf[..fragmentLength + |p.payload|] == was + p.payload;
        fragmentLength := fragmentLength + |p.payload|;
        if p.eom {
          complete, whole := true, fragmentBuf[..fragmentLength];
          fragmentLength := 0;
        }
      }
    }

    /**
     * NQNetchan_Process: the datagrams sent in reply, whether the caller has a payload to execute,
     * and that payload.  Every reliable fragment is acknowledged, whether it is new or not.
     */
    method Process(wire: seq<Byte>) returns (reply: seq<seq<Byte>>, execute: bool, payload: seq<Byte>)
      requires Valid()
      modifies this, fragmentBuf
      ensures Valid()
      ensures match NqParse(wire)
              case None => View() == old(View()) && reply == [] && !execute
              case Some(p) =>
                && View() == AfterNqProcess(old(View()), p)
                && reply == (if p.Data? then [NqWire(Ack(p.sequence))] else [])
                && execute == (Completes(old(View()), p)
                               || (p.Unreliable? && p.sequence >= old(View()).incomingUnreliable))
                && (execute ==> payload == if p.Data? then old(View()).fragment + p.payload else Payload(p))
    {
      hide Big, GetBig, RestLong;
      reply, execute, payload := [], false, [];
      var parsed := NqParse(wire);
      match parsed {
        case None =>
        case Some(Ack(sequence)) =>
          HandleAck(sequence);
        case Some(Unreliable(sequence, body)) =>
          if sequence >= incomingUnreliable {
            incomingUnreliable := sequence;
            execute, payload := true, body;
          }
        case Some(p) =>
          var runt := Datagram(NETFLAG_ACK, p.sequence, []);
          reply := [runt];
          assert runt == NqWire(Ack(p.sequence));
          execute, payload := HandleData(p);
      }
    }
  }
}
