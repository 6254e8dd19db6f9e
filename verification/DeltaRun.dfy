/**
 * Entity frames over a whole run: a server and a client that exchange numbered packets over a lossy,
 * duplicating and reordering network and keep the last 64 frames as delta references
 * (fteqtv/source.c and fteqtv/parse.c for the client, fteqtv/qw.c for the server).
 *
 * The server answers packet `n` of the client with packet `n`.  The client asks for a delta against
 * the last frame it has; both sides find that frame in slot `c % 64` of their rings.  An answer is
 * drawn up behind whatever its message already holds, and what does not fit is cut.
 */
module DeltaRun {
  import opened Msg
  import opened Netchan
  import opened Delta
  import opened DeltaCodec
  import opened PacketEntities
  import opened CutFrame
  import opened FrameCodec

  const ENTITY_FRAMES: nat := 64

  /** A client packet: its number, the slot it asks for (-1 for none) and the frame it means. */
  datatype Request = Request(sequence: nat, slot: int, reference: nat)

  /**
   * A server packet: its number, the request it answers and the bytes of its entity frame, for which its
   * message had `room`; `base` is the packet whose frame the server's slot held, -1 for none, and `whole`
   * says that every byte that was cut is a zero.
   */
  datatype Reply = Reply(sequence: nat, request: Request, bytes: seq<Byte>, room: nat, base: int, whole: bool)

  datatype Client = Client(outgoing: nat, incoming: nat, ring: seq<Frame>)
  datatype Server = Server(incoming: nat, request: Request, ring: seq<Frame>, maysend: bool)

  /**
   * Beside the two ends and what was sent: the frame the server meant in each of its packets, the packets
   * whose frames stand in the slots of the two rings (-1 for none), and the packets whose frames the
   * client has put together exactly.
   */
  datatype Session = Session(
    client: Client,
    server: Server,
    requests: set<Request>,
    replies: set<Reply>,
    sent: map<nat, Frame>,
    clientHolds: seq<int>,
    serverHolds: seq<int>,
    exact: set<nat>)

  datatype Event =
    | ClientSends
    | ServerReceives(request: Request)
    | ServerSends(frame: Frame, used: nat)
    | ClientReceives(reply: Reply)

  function Slot(n: nat): (slot: nat)
    ensures slot < ENTITY_FRAMES
  {
    n % 64
  }

  /** What is left of a message. */
  function Room(used: nat): nat {
    if used <= MAX_QWMSGLEN then MAX_QWMSGLEN - used else 0
  }

  /** The client's baselines, as the records of the start-up state bring them. */
  function Received(fmt: Format, base: Baselines): (q: Baselines)
    ensures |q| == |base| && forall i :: 0 <= i < |base| ==> q[i] == ReadBaseline(fmt, BaselineBytes(fmt, base[i])).0
  {
    seq(|base|, i requires 0 <= i < |base| => ReadBaseline(fmt, BaselineBytes(fmt, base[i])).0)
  }

  /** The baselines that survive the trip. */
  ghost predicate PlainBaselines(base: Baselines) {
    && |base| == MAX_ENTITIES
    && forall i :: 0 <= i < |base| ==>
         base[i].modelindex < 0x100 && base[i].effects == 0 && base[i].alpha == 0 && base[i].scale == 0
  }

  lemma BaselinesArrive(fmt: Format, base: Baselines)
    requires |base| == MAX_ENTITIES
    ensures Received(fmt, base) == QuantiseBaselines(fmt, base) <==> PlainBaselines(base)
  {
    hide ReadBaseline, BaselineBytes, Quantise;
    forall i | 0 <= i < |base|
      ensures Received(fmt, base)[i] == QuantiseBaselines(fmt, base)[i]
              <==> base[i].modelindex < 0x100 && base[i].effects == 0 && base[i].alpha == 0 && base[i].scale == 0
    {
      BaselineRoundTrip(fmt, base[i], []);
      assert BaselineBytes(fmt, base[i]) + [] == BaselineBytes(fmt, base[i]);
    }
  }

  // ---------- Steps ----------

  /** The request the client sends next; sending wipes the slot of the expected answer. */
  function NextRequest(c: Client): Request
    requires |c.ring| == ENTITY_FRAMES
  {
    Request(c.outgoing, if c.ring[Slot(c.incoming)] != [] then Slot(c.incoming) else -1, c.incoming)
  }

  function ClientSend(c: Client): Client
    requires |c.ring| == ENTITY_FRAMES
  {
    Client(c.outgoing + 1, c.incoming, c.ring[Slot(c.outgoing) := []])
  }

  /** The bytes of an answer before they are cut, drawn up after the new frame has been stored in the ring. */
  function ReplyBytes(fmt: Format, base: Baselines, ring: seq<Frame>, request: Request, frame: Frame): seq<Byte>
    requires |ring| == ENTITY_FRAMES
  {
    EmitFrame(fmt, base, request.slot, if request.slot != -1 then ring[request.slot % 64] else [], frame)
  }

  /** The server's next answer, when its ring and what the slots hold include the new frame. */
  function NextReply(fmt: Format, base: Baselines, n: nat, request: Request, ring: seq<Frame>, holds: seq<int>,
                     frame: Frame, room: nat): Reply
    requires |ring| == |holds| == ENTITY_FRAMES
  {
    var bytes := ReplyBytes(fmt, base, ring, request, frame);
    Reply(n, request, Clip(bytes, room), room, if request.slot != -1 then holds[request.slot % 64] else -1,
          ZerosFrom(bytes, room))
  }

  /** What the client makes of an answer. */
  function ParseReply(fmt: Format, base: Baselines, ring: seq<Frame>, bytes: seq<Byte>): Frame
    requires |ring| == ENTITY_FRAMES
  {
    if First(bytes) == SVC_DELTAPACKETENTITIES
    then ParseEnts(fmt, base, ring[First(Rest(bytes)) % 64], Skip(bytes, 2)).0
    else ParseEnts(fmt, base, [], Rest(bytes)).0
  }

  /** The client has sent at most 64 packets since the reference's own. */
  predicate Timely(c: Client, request: Request) {
    request.slot == -1 || c.outgoing <= request.reference + ENTITY_FRAMES
  }

  /** The client's slot holds, exactly, the frame that the answer is relative to. */
  predicate HasReference(s: Session, r: Reply)
    requires |s.clientHolds| == ENTITY_FRAMES
  {
    r.request.slot == -1 || (s.clientHolds[r.request.slot % 64] == r.base && (r.base < 0 || r.base in s.exact))
  }

  predicate Exactly(s: Session, r: Reply)
    requires |s.clientHolds| == ENTITY_FRAMES
  {
    r.whole && HasReference(s, r)
  }

  /** The frame the server meant in packet `n`. */
  function FrameOf(s: Session, n: int): Frame {
    if n >= 0 && n in s.sent then s.sent[n] else []
  }

  function ClientAccept(fmt: Format, base: Baselines, c: Client, reply: Reply): Client
    requires |c.ring| == ENTITY_FRAMES
  {
    Client(c.outgoing, reply.sequence,
           c.ring[Slot(reply.sequence) := ParseReply(fmt, base, c.ring, reply.bytes)])
  }

  ghost predicate Shaped(s: Session) {
    |s.client.ring| == |s.server.ring| == |s.clientHolds| == |s.serverHolds| == ENTITY_FRAMES
  }

  /** Events that cannot happen change nothing; `base` are the server's baselines. */
  ghost function Happen(fmt: Format, base: Baselines, s: Session, event: Event): (t: Session)
    requires Shaped(s)
    ensures Shaped(t)
  {
    match event
    case ClientSends =>
      s.(client := ClientSend(s.client), requests := s.requests + {NextRequest(s.client)},
         clientHolds := s.clientHolds[Slot(s.client.outgoing) := -1])
    case ServerReceives(r) =>
      if r in s.requests && r.sequence > s.server.incoming
      then s.(server := Server(r.sequence, r, s.server.ring, true)) else s
    case ServerSends(frame, used) =>
      if s.server.maysend && ValidFrame(frame) then
        var n := s.server.incoming;
        var ring, holds := s.server.ring[Slot(n) := frame], s.serverHolds[Slot(n) := n];
        var reply := NextReply(fmt, base, n, s.server.request, ring, holds, frame, Room(used));
        s.(server := Server(n, s.server.request, ring, false), serverHolds := holds,
           replies := s.replies + {reply}, sent := s.sent[n := frame])
      else s
    case ClientReceives(r) =>
      if r in s.replies && r.sequence > s.client.incoming
      then s.(client := ClientAccept(fmt, Received(fmt, base), s.client, r),
              clientHolds := s.clientHolds[Slot(r.sequence) := r.sequence],
              exact := if Exactly(s, r) then s.exact + {r.sequence} else s.exact)
      else s
  }

  ghost function Run(fmt: Format, base: Baselines, s: Session, events: seq<Event>): (t: Session)
    requires Shaped(s)
    ensures Shaped(t)
    decreases |events|
  {
    if events == [] then s else Run(fmt, base, Happen(fmt, base, s, events[0]), events[1..])
  }

  function Begin(): (s: Session)
    ensures Shaped(s)
  {
    var empty, none := seq(ENTITY_FRAMES, _ => []), seq(ENTITY_FRAMES, _ => -1);
    Session(Client(0, 0, empty), Server(0, Request(0, -1, 0), empty, false), {}, {}, map[], none, none, {})
  }

  // ---------- The invariant ----------

  /** A slot of the client's ring: nothing, or what it made of a packet it has accepted. */
  ghost predicate ClientSlotOk(fmt: Format, s: Session, k: nat)
    requires Shaped(s) && k < ENTITY_FRAMES
  {
    var n := s.clientHolds[k];
    if n < 0 then n == -1 && s.client.ring[k] == []
    else
      && Slot(n) == k && 0 < n <= s.client.incoming && n in s.sent
      && (n in s.exact ==> s.client.ring[k] == QuantiseFrame(fmt, s.sent[n]))
  }

  ghost predicate ClientOk(fmt: Format, s: Session)
    requires Shaped(s)
  {
    && (forall k :: 0 <= k < ENTITY_FRAMES ==> ClientSlotOk(fmt, s, k))
    && (forall n :: n in s.exact ==> 0 < n <= s.client.incoming && n in s.sent)
    && (s.client.incoming != 0 ==>
          && s.client.incoming < s.client.outgoing && s.client.incoming in s.sent
          && (s.client.outgoing <= s.client.incoming + ENTITY_FRAMES
              ==> s.clientHolds[Slot(s.client.incoming)] == s.client.incoming))
  }

  /** The frame a request refers to stands in its slot until the slot is wiped; then the slot stays empty. */
  ghost predicate RequestOk(s: Session, r: Request)
    requires Shaped(s)
  {
    && r.sequence < s.client.outgoing
    && (r.slot != -1 ==>
          && r.slot == Slot(r.reference) && 0 < r.reference < r.sequence && r.reference <= s.client.incoming
          && r.reference in s.sent
          && (s.client.outgoing <= r.reference + ENTITY_FRAMES ==> s.clientHolds[r.slot] == r.reference)
          && (r.sequence <= r.reference + ENTITY_FRAMES < s.client.outgoing && r.sequence > s.client.incoming
              ==> s.clientHolds[r.slot] == -1))
  }

  ghost predicate ServerSlotOk(s: Session, k: nat)
    requires Shaped(s) && k < ENTITY_FRAMES
  {
    var n := s.serverHolds[k];
    if n < 0 then n == -1 && s.server.ring[k] == []
    else Slot(n) == k && n in s.sent && s.server.ring[k] == s.sent[n]
  }

  ghost predicate ServerOk(s: Session)
    requires Shaped(s)
  {
    && (s.server.incoming == 0 ==> !s.server.maysend && s.sent == map[])
    && (s.server.incoming != 0 ==> s.server.request in s.requests && s.server.request.sequence == s.server.incoming)
    && (forall k :: 0 <= k < ENTITY_FRAMES ==> ServerSlotOk(s, k))
    && (forall n :: n in s.sent ==>
          && 0 < n <= s.server.incoming && (n == s.server.incoming ==> !s.server.maysend)
          && ValidFrame(s.sent[n])
          && (s.server.incoming < n + ENTITY_FRAMES ==> s.serverHolds[Slot(n)] == n))
  }

  ghost predicate ReplyOk(fmt: Format, base: Baselines, s: Session, r: Reply)
    requires Shaped(s)
  {
    && r.request in s.requests && r.request.sequence == r.sequence && r.sequence in s.sent
    && (r.base < 0 || (r.base in s.sent && r.request.slot != -1))
    && (var bytes := EmitFrame(fmt, base, r.request.slot, if r.base < 0 then [] else s.sent[r.base],
                               s.sent[r.sequence]);
        r.bytes == Clip(bytes, r.room) && r.whole == ZerosFrom(bytes, r.room))
    && (r.request.slot != -1 && r.sequence < r.request.reference + ENTITY_FRAMES ==> r.base == r.request.reference)
  }

  ghost predicate Sound(fmt: Format, base: Baselines, s: Session)
    requires Shaped(s)
  {
    && PlainBaselines(base)
    && ClientOk(fmt, s) && ServerOk(s)
    && (forall r :: r in s.requests ==> RequestOk(s, r))
    && (forall r :: r in s.replies ==> ReplyOk(fmt, base, s, r))
  }

  // ---------- Each event keeps it ----------

  lemma SlotsDiffer(a: nat, b: nat)
    requires a < b < a + ENTITY_FRAMES
    ensures Slot(a) != Slot(b)
  {
  }

  /** The slots of the last 64 frames before `n` are not the slot of `n`. */
  lemma EarlierSlotsDiffer(n: nat)
    ensures forall m: nat :: m < n < m + ENTITY_FRAMES ==> Slot(m) != Slot(n)
  {
    hide Slot;
    forall m: nat | m < n < m + ENTITY_FRAMES
      ensures Slot(m) != Slot(n)
    {
      SlotsDiffer(m, n);
    }
  }

  lemma NextSlot(n: nat)
    ensures Slot(n + ENTITY_FRAMES) == Slot(n)
  {
  }

  lemma ClientSendsSound(fmt: Format, base: Baselines, s: Session)
    requires Shaped(s) && Sound(fmt, base, s)
    ensures Sound(fmt, base, Happen(fmt, base, s, ClientSends))
  {
    hide EmitFrame, QuantiseFrame, Slot, PlainBaselines;
    var t := Happen(fmt, base, s, ClientSends);
    EarlierSlotsDiffer(s.client.outgoing);
    forall k | 0 <= k < ENTITY_FRAMES
      ensures ClientSlotOk(fmt, t, k)
    {
      assert ClientSlotOk(fmt, s, k);
    }
    assert ServerOk(t) by { ServerOkSame(s, t); }
    assert ClientSlotOk(fmt, s, Slot(s.client.incoming));
    NewRequestOk(s, t);
    forall r | r in s.requests
      ensures RequestOk(t, r)
    {
      assert RequestOk(s, r);
      NextSlot(r.reference);
    }
    forall r | r in t.replies
      ensures ReplyOk(fmt, base, t, r)
    {
      assert ReplyOk(fmt, base, s, r);
    }
  }

  lemma ServerOkSame(s: Session, t: Session)
    requires Shaped(s) && Shaped(t) && ServerOk(s)
    requires t.server == s.server && t.serverHolds == s.serverHolds && t.sent == s.sent && s.requests <= t.requests
    ensures ServerOk(t)
  {
    forall k | 0 <= k < ENTITY_FRAMES
      ensures ServerSlotOk(t, k)
    {
      assert ServerSlotOk(s, k);
    }
  }

  lemma NewRequestOk(s: Session, t: Session)
    requires Shaped(s) && Shaped(t)
    requires t.client == ClientSend(s.client) && t.sent == s.sent
    requires t.clientHolds == s.clientHolds[Slot(s.client.outgoing) := -1]
    requires s.client.incoming != 0 ==>
               && s.client.incoming < s.client.outgoing && s.client.incoming in s.sent
               && (s.client.outgoing <= s.client.incoming + ENTITY_FRAMES
                   ==> s.clientHolds[Slot(s.client.incoming)] == s.client.incoming)
    requires s.client.incoming == 0 ==> s.client.ring[Slot(s.client.incoming)] == []
    ensures RequestOk(t, NextRequest(s.client))
  {
    hide Slot;
    EarlierSlotsDiffer(s.client.outgoing);
    NextSlot(s.client.incoming);
  }

  lemma ServerReceivesSound(fmt: Format, base: Baselines, s: Session, r: Request)
    requires Shaped(s) && Sound(fmt, base, s)
    ensures Sound(fmt, base, Happen(fmt, base, s, ServerReceives(r)))
  {
    hide EmitFrame, QuantiseFrame, PlainBaselines, Slot;
    var t := Happen(fmt, base, s, ServerReceives(r));
    forall k | 0 <= k < ENTITY_FRAMES
      ensures ServerSlotOk(t, k) && ClientSlotOk(fmt, t, k)
    {
      assert ServerSlotOk(s, k) && ClientSlotOk(fmt, s, k);
    }
    assert ServerOk(t);
    forall q | q in t.requests
      ensures RequestOk(t, q)
    {
      assert RequestOk(s, q);
    }
    forall q | q in t.replies
      ensures ReplyOk(fmt, base, t, q)
    {
      assert ReplyOk(fmt, base, s, q);
    }
  }

  /** The bytes of the new answer are relative to the frame that the slot holds. */
  lemma NewReplyOk(fmt: Format, base: Baselines, s: Session, frame: Frame, used: nat)
    requires Shaped(s) && Sound(fmt, base, s)
    requires s.server.maysend && ValidFrame(frame)
    ensures var t := Happen(fmt, base, s, ServerSends(frame, used));
            var n := s.server.incoming;
            && ServerOk(t)
            && ReplyOk(fmt, base, t, NextReply(fmt, base, n, s.server.request, t.server.ring, t.serverHolds, frame,
                                               Room(used)))
  {
    hide EmitFrame, QuantiseFrame, PlainBaselines, Slot, Clip;
    var t := Happen(fmt, base, s, ServerSends(frame, used));
    var n := s.server.incoming;
    assert n !in s.sent;
    EarlierSlotsDiffer(n);
    forall k | 0 <= k < ENTITY_FRAMES
      ensures ServerSlotOk(t, k)
    {
      assert ServerSlotOk(s, k);
    }
    assert RequestOk(s, s.server.request);
    if s.server.request.slot != -1 {
      SlotIsSmall(s.server.request.reference);
      assert ServerSlotOk(t, s.server.request.slot);
    }
  }

  lemma SlotIsSmall(n: nat)
    ensures Slot(n) % 64 == Slot(n)
  {
  }

  lemma ServerSendsSound(fmt: Format, base: Baselines, s: Session, frame: Frame, used: nat)
    requires Shaped(s) && Sound(fmt, base, s)
    ensures Sound(fmt, base, Happen(fmt, base, s, ServerSends(frame, used)))
  {
    hide EmitFrame, QuantiseFrame, Slot, ReplyBytes, NextReply, PlainBaselines;
    var t := Happen(fmt, base, s, ServerSends(frame, used));
    if s.server.maysend && ValidFrame(frame) {
      assert s.server.incoming !in s.sent;
      NewReplyOk(fmt, base, s, frame, used);
      forall k | 0 <= k < ENTITY_FRAMES
        ensures ClientSlotOk(fmt, t, k)
      {
        assert ClientSlotOk(fmt, s, k);
      }
      forall q | q in t.requests
        ensures RequestOk(t, q)
      {
        assert RequestOk(s, q);
      }
      forall q | q in s.replies
        ensures ReplyOk(fmt, base, t, q)
      {
        assert ReplyOk(fmt, base, s, q);
      }
    }
  }

  lemma AlikeReply(fmt: Format, q: Baselines, ring: seq<Frame>, s: seq<Byte>, t: seq<Byte>)
    requires |ring| == ENTITY_FRAMES && Alike(s, t)
    ensures ParseReply(fmt, q, ring, s) == ParseReply(fmt, q, ring, t)
  {
    hide Alike, ParseEnts, Skip;
    AlikeNext(s, t);
    AlikeNext(Rest(s), Rest(t));
    AlikeSkip(s, t, 2);
    AlikeEnts(fmt, q, [], Rest(s), Rest(t));
    AlikeEnts(fmt, q, ring[First(Rest(s)) % 64], Skip(s, 2), Skip(t, 2));
  }

  /** An answer of which the kind is left is parsed onto the slot that it names. */
  lemma ParseKind(fmt: Format, base: Baselines, q: Baselines, ring: seq<Frame>, slot: int, from: Frame, to: Frame,
                  room: nat)
    requires |ring| == ENTITY_FRAMES && -1 <= slot < ENTITY_FRAMES && |FrameKind(slot)| <= room
    ensures var bytes := Clip(EmitFrame(fmt, base, slot, from, to), room);
            ParseReply(fmt, q, ring, bytes)
            == ParseEnts(fmt, q, if slot == -1 then [] else ring[slot], Skip(bytes, |FrameKind(slot)|)).0
  {
    hide ParseEnts, Emit, Short;
    var bytes := Clip(EmitFrame(fmt, base, slot, from, to), room);
    if slot == -1 {
      assert bytes[0] == SVC_PACKETENTITIES;
      assert Skip(bytes, 1) == Skip(Rest(bytes), 0);
    } else {
      assert bytes[0] == SVC_DELTAPACKETENTITIES && bytes[1] == slot;
    }
  }

  /** The frame that the client puts together from a whole answer on the reference it is relative to. */
  lemma ReconstructsFrame(fmt: Format, base: Baselines, s: Session, r: Reply)
    requires Shaped(s) && Sound(fmt, base, s) && r in s.replies && HasReference(s, r)
    ensures r.sequence in s.sent
    ensures var got := ParseReply(fmt, Received(fmt, base), s.client.ring, r.bytes);
            && (r.whole ==> got == QuantiseFrame(fmt, s.sent[r.sequence]))
            && (AsReceived(fmt, base, FrameOf(s, r.base), s.sent[r.sequence]) && 2 <= r.room ==>
                  (got == s.sent[r.sequence] <==> r.whole))
  {
    hide EmitFrame, QuantiseFrame, QuantiseBaselines, ParseEnts, Slot, Clip, Received, ParseReply, AsReceived, Skip,
         ZerosFrom, Alike;
    assert ReplyOk(fmt, base, s, r);
    assert RequestOk(s, r.request);
    BaselinesArrive(fmt, base);
    NothingQuantised(fmt);
    var q := Received(fmt, base);
    var frame, slot, from := s.sent[r.sequence], r.request.slot, FrameOf(s, r.base);
    var bytes := EmitFrame(fmt, base, slot, from, frame);
    FrameInRoom(fmt, base, slot, from, frame, r.room);
    if slot != -1 {
      SlotIsSmall(r.request.reference);
      assert ClientSlotOk(fmt, s, slot);
    }
    if 2 <= r.room {
      ParseKind(fmt, base, q, s.client.ring, slot, from, frame, r.room);
      if AsReceived(fmt, base, from, frame) {
        ReceivedFrames(fmt, base, from, frame);
      }
    } else if r.whole {
      ClippedAlike(bytes, r.room);
      AlikeReply(fmt, q, s.client.ring, r.bytes, bytes);
      WholeBytes(bytes);
      FrameInRoom(fmt, base, slot, from, frame, |bytes| + 2);
      ParseKind(fmt, base, q, s.client.ring, slot, from, frame, |bytes| + 2);
    }
  }

  lemma WholeBytes(bytes: seq<Byte>)
    ensures Clip(bytes, |bytes| + 2) == bytes && ZerosFrom(bytes, |bytes| + 2)
  {
  }

  lemma NothingQuantised(fmt: Format)
    ensures QuantiseFrame(fmt, []) == [] && ValidFrame([])
  {
  }

  lemma ClientReceivesSound(fmt: Format, base: Baselines, s: Session, r: Reply)
    requires Shaped(s) && Sound(fmt, base, s)
    ensures Sound(fmt, base, Happen(fmt, base, s, ClientReceives(r)))
  {
    hide EmitFrame, QuantiseFrame, ParseReply, Received, PlainBaselines, Slot;
    var t := Happen(fmt, base, s, ClientReceives(r));
    if r in s.replies && r.sequence > s.client.incoming {
      assert ReplyOk(fmt, base, s, r);
      assert RequestOk(s, r.request);
      if Exactly(s, r) {
        ReconstructsFrame(fmt, base, s, r);
      }
      EarlierSlotsDiffer(r.sequence);
      forall k | 0 <= k < ENTITY_FRAMES
        ensures ClientSlotOk(fmt, t, k)
      {
        assert ClientSlotOk(fmt, s, k);
      }
      assert ServerOk(t) by { ServerOkSame(s, t); }
      forall q | q in t.requests
        ensures RequestOk(t, q)
      {
        assert RequestOk(s, q);
      }
      forall q | q in t.replies
        ensures ReplyOk(fmt, base, t, q)
      {
        assert ReplyOk(fmt, base, s, q);
      }
    }
  }

  lemma {:induction false} RunSound(fmt: Format, base: Baselines, s: Session, events: seq<Event>)
    requires Shaped(s) && Sound(fmt, base, s)
    ensures Sound(fmt, base, Run(fmt, base, s, events))
    decreases |events|
  {
    hide Happen, Sound;
    if events != [] {
      match events[0] {
        case ClientSends => ClientSendsSound(fmt, base, s);
        case ServerReceives(r) => ServerReceivesSound(fmt, base, s, r);
        case ServerSends(frame, used) => ServerSendsSound(fmt, base, s, frame, used);
        case ClientReceives(r) => ClientReceivesSound(fmt, base, s, r);
      }
      RunSound(fmt, base, Happen(fmt, base, s, events[0]), events[1..]);
    }
  }

  lemma BeginSound(fmt: Format, base: Baselines)
    requires PlainBaselines(base)
    ensures Sound(fmt, base, Begin())
  {
    hide PlainBaselines, QuantiseFrame;
  }

  // ---------- Main results ----------

  /**
   * In every run, an answer that the client accepts gives exactly the quantised frame that the server
   * meant, when it is whole and its reference is held exactly.  That is so for every answer without
   * reference, and for a delta on an exact reference while the client has sent at most 64 packets since;
   * whatever was lost, repeated, reordered, cut or late before.  For frames and baselines that came off the
   * wire themselves, an answer on an exact reference gives the frame only if it is whole.
   */
  lemma FramesAreExact(fmt: Format, base: Baselines, events: seq<Event>, r: Reply)
    requires PlainBaselines(base)
    requires var s := Run(fmt, base, Begin(), events); r in s.replies && r.sequence > s.client.incoming
    ensures var s := Run(fmt, base, Begin(), events);
            var t := Happen(fmt, base, s, ClientReceives(r));
            && r.sequence in s.sent && (r.sequence in t.exact <==> Exactly(s, r))
            && (Exactly(s, r) ==> t.client.ring[Slot(r.sequence)] == QuantiseFrame(fmt, s.sent[r.sequence]))
            && (HasReference(s, r) && 2 <= r.room && AsReceived(fmt, base, FrameOf(s, r.base), s.sent[r.sequence]) ==>
                  (t.client.ring[Slot(r.sequence)] == s.sent[r.sequence] <==> r.whole))
            && (r.whole && r.request.slot == -1 ==> Exactly(s, r))
            && (r.whole && Timely(s.client, r.request) && r.request.reference in s.exact ==> Exactly(s, r))
  {
    hide QuantiseFrame, ParseReply, Received, PlainBaselines, Slot, EmitFrame, AsReceived;
    BeginSound(fmt, base);
    RunSound(fmt, base, Begin(), events);
    var s := Run(fmt, base, Begin(), events);
    assert ReplyOk(fmt, base, s, r);
    assert RequestOk(s, r.request);
    if HasReference(s, r) {
      ReconstructsFrame(fmt, base, s, r);
    }
    if r.request.slot != -1 {
      SlotIsSmall(r.request.reference);
    }
  }

  /**
   * When a delta is too late, the slot of its reference is empty, so that the records are applied to
   * nothing; unless the request itself was sent more than 64 packets after its reference, which takes an
   * answer that arrived after the client had already reused its slot.
   */
  lemma LateDeltaOnNothing(fmt: Format, base: Baselines, events: seq<Event>, r: Reply)
    requires PlainBaselines(base)
    requires var s := Run(fmt, base, Begin(), events);
             && r in s.replies && r.sequence > s.client.incoming
             && !Timely(s.client, r.request) && r.sequence <= r.request.reference + ENTITY_FRAMES
    ensures var s := Run(fmt, base, Begin(), events);
            && s.client.ring[r.request.slot % 64] == []
            && (|r.bytes| >= 2 ==>
                  ParseReply(fmt, Received(fmt, base), s.client.ring, r.bytes)
                  == ParseEnts(fmt, Received(fmt, base), [], r.bytes[2..]).0)
  {
    hide QuantiseFrame, ParseReply, Received, PlainBaselines, Slot, EmitFrame, Clip;
    BeginSound(fmt, base);
    RunSound(fmt, base, Begin(), events);
    var s := Run(fmt, base, Begin(), events);
    assert ReplyOk(fmt, base, s, r);
    assert RequestOk(s, r.request);
    var slot := r.request.slot;
    SlotIsSmall(r.request.reference);
    assert ClientSlotOk(fmt, s, slot);
    if |r.bytes| >= 2 {
      var from := if r.base < 0 then [] else s.sent[r.base];
      ParseDelta(fmt, base, Received(fmt, base), s.client.ring, slot, from, s.sent[r.sequence], r.room);
    }
  }

  /** An answer of which the first two bytes are left is a delta against the slot that they name. */
  lemma ParseDelta(fmt: Format, base: Baselines, q: Baselines, ring: seq<Frame>, slot: nat, from: Frame, to: Frame,
                   room: nat)
    requires |ring| == ENTITY_FRAMES && slot < ENTITY_FRAMES
    requires |Clip(EmitFrame(fmt, base, slot, from, to), room)| >= 2
    ensures var bytes := Clip(EmitFrame(fmt, base, slot, from, to), room);
            ParseReply(fmt, q, ring, bytes) == ParseEnts(fmt, q, ring[slot], bytes[2..]).0
  {
    hide ParseEnts, Emit, Short;
    var bytes := Clip(EmitFrame(fmt, base, slot, from, to), room);
    assert bytes[0] == SVC_DELTAPACKETENTITIES && bytes[1] == slot;
    assert bytes[2..] == Rest(Rest(bytes));
    assert Skip(bytes, 2) == Skip(Rest(bytes), 1) == Skip(Rest(Rest(bytes)), 0);
  }

  /** Every answer that the client accepts is whole and in time. */
  ghost predicate OnTime(fmt: Format, base: Baselines, s: Session, events: seq<Event>)
    requires Shaped(s)
    decreases |events|
  {
    events != [] ==>
      && (events[0].ClientReceives? && events[0].reply in s.replies && events[0].reply.sequence > s.client.incoming
          ==> events[0].reply.whole && Timely(s.client, events[0].reply.request))
      && OnTime(fmt, base, Happen(fmt, base, s, events[0]), events[1..])
  }

  /** Everything that a request may refer to is held exactly. */
  ghost predicate NeverWrong(s: Session) {
    && (s.client.incoming != 0 ==> s.client.incoming in s.exact)
    && forall r :: r in s.requests && r.slot != -1 ==> r.reference in s.exact
  }

  lemma StaysRight(fmt: Format, base: Baselines, s: Session, event: Event)
    requires Shaped(s) && Sound(fmt, base, s) && NeverWrong(s)
    requires OnTime(fmt, base, s, [event])
    ensures NeverWrong(Happen(fmt, base, s, event))
  {
    hide QuantiseFrame, ParseReply, Received, PlainBaselines, Slot, EmitFrame, ReplyBytes, NextReply;
    match event
    case ClientSends =>
      if s.client.incoming == 0 {
        assert ClientSlotOk(fmt, s, Slot(0));
      }
    case ServerReceives(_) =>
    case ServerSends(_, _) =>
    case ClientReceives(r) =>
      if r in s.replies && r.sequence > s.client.incoming {
        assert ReplyOk(fmt, base, s, r);
        assert RequestOk(s, r.request);
        if r.request.slot != -1 {
          SlotIsSmall(r.request.reference);
        }
      }
  }

  lemma {:induction false} StaysExact(fmt: Format, base: Baselines, s: Session, events: seq<Event>)
    requires Shaped(s) && Sound(fmt, base, s) && NeverWrong(s) && OnTime(fmt, base, s, events)
    ensures var t := Run(fmt, base, s, events);
            && NeverWrong(t) && Sound(fmt, base, t)
            && (t.client.incoming != 0 && t.client.outgoing <= t.client.incoming + ENTITY_FRAMES ==>
                  t.client.incoming in t.sent
                  && t.client.ring[Slot(t.client.incoming)] == QuantiseFrame(fmt, t.sent[t.client.incoming]))
    decreases |events|
  {
    hide Happen, QuantiseFrame, PlainBaselines, Slot;
    if events == [] {
      if s.client.incoming != 0 {
        assert ClientSlotOk(fmt, s, Slot(s.client.incoming));
      }
    } else {
      assert [events[0]][1..] == [];
      StaysRight(fmt, base, s, events[0]);
      RunSound(fmt, base, s, [events[0]]);
      OneEvent(fmt, base, s, events[0]);
      StaysExact(fmt, base, Happen(fmt, base, s, events[0]), events[1..]);
    }
  }

  lemma OneEvent(fmt: Format, base: Baselines, s: Session, event: Event)
    requires Shaped(s)
    ensures Run(fmt, base, s, [event]) == Happen(fmt, base, s, event)
  {
    hide Happen;
    assert [event][1..] == [];
  }

  /** Errors never accumulate: while answers are whole and in time, the frame last accepted is exact. */
  lemma ErrorsNeverAccumulate(fmt: Format, base: Baselines, events: seq<Event>)
    requires PlainBaselines(base) && OnTime(fmt, base, Begin(), events)
    ensures var t := Run(fmt, base, Begin(), events);
            t.client.incoming != 0 && t.client.outgoing <= t.client.incoming + ENTITY_FRAMES ==>
              && t.client.incoming in t.sent
              && t.client.ring[Slot(t.client.incoming)] == QuantiseFrame(fmt, t.sent[t.client.incoming])
  {
    BeginSound(fmt, base);
    StaysExact(fmt, base, Begin(), events);
  }

  // ---------- What goes wrong otherwise ----------

  lemma {:induction false} RunSum(fmt: Format, base: Baselines, s: Session, a: seq<Event>, b: seq<Event>)
    requires Shaped(s)
    ensures Run(fmt, base, s, a + b) == Run(fmt, base, Run(fmt, base, s, a), b)
    decreases |a|
  {
    hide Happen;
    if a == [] {
      assert a + b == b;
    } else {
      assert (a + b)[1..] == a[1..] + b;
      RunSum(fmt, base, Happen(fmt, base, s, a[0]), a[1..], b);
    }
  }

  lemma RunMore(fmt: Format, base: Baselines, s: Session, a: seq<Event>, event: Event)
    requires Shaped(s)
    ensures Run(fmt, base, s, a + [event]) == Happen(fmt, base, Run(fmt, base, s, a), event)
  {
    hide Happen, Run;
    RunSum(fmt, base, s, a, [event]);
    OneEvent(fmt, base, Run(fmt, base, s, a), event);
  }

  /** The answer to the client's first packet, as far as it fits. */
  function FirstReply(fmt: Format, base: Baselines, frame: Frame, used: nat): Reply {
    var bytes := EmitFrame(fmt, base, -1, [], frame);
    Reply(1, Request(1, -1, 0), Clip(bytes, Room(used)), Room(used), -1, ZerosFrom(bytes, Room(used)))
  }

  /** The run in which the client's packet 1 is answered; packet 0 is always discarded. */
  function FirstExchange(fmt: Format, base: Baselines, frame: Frame, used: nat): seq<Event> {
    [ClientSends, ClientSends, ServerReceives(Request(1, -1, 0)), ServerSends(frame, used),
     ClientReceives(FirstReply(fmt, base, frame, used))]
  }

  /** What matters of a session whose client has accepted packet 1 last. */
  ghost predicate HasFirst(s: Session, frame: Frame, got: Frame, outgoing: nat)
    requires Shaped(s)
  {
    && s.client.incoming == 1 && s.client.outgoing == outgoing && s.client.ring[1] == got
    && s.server.incoming == 1 && s.server.ring[1] == frame && s.serverHolds[1] == 1
    && forall r :: r in s.replies ==> r.sequence == 1
  }

  lemma AfterFirstExchange(fmt: Format, base: Baselines, frame: Frame, used: nat)
    requires ValidFrame(frame)
    ensures var t := Run(fmt, base, Begin(), FirstExchange(fmt, base, frame, used));
            HasFirst(t, frame, ParseReply(fmt, Received(fmt, base), Begin().client.ring,
                                          FirstReply(fmt, base, frame, used).bytes), 2)
  {
    hide EmitFrame, ParseReply, Received, Clip, Run, ValidFrame;
    var events := FirstExchange(fmt, base, frame, used);
    var s := Begin();
    var s1 := Happen(fmt, base, s, ClientSends);
    var s2 := Happen(fmt, base, s1, ClientSends);
    assert s2.client.ring == s.client.ring;
    var s3 := Happen(fmt, base, s2, events[2]);
    var s4 := Happen(fmt, base, s3, events[3]);
    assert FirstReply(fmt, base, frame, used) in s4.replies;
    assert s4.client.ring == s.client.ring;
    FiveEvents(fmt, base, s, events);
  }

  lemma FiveEvents(fmt: Format, base: Baselines, s: Session, e: seq<Event>)
    requires Shaped(s) && |e| == 5
    ensures Run(fmt, base, s, e)
            == Happen(fmt, base, Happen(fmt, base, Happen(fmt, base, Happen(fmt, base, Happen(fmt, base, s,
                 e[0]), e[1]), e[2]), e[3]), e[4])
  {
    hide Happen, Run;
    OneEvent(fmt, base, s, e[0]);
    RunMore(fmt, base, s, [e[0]], e[1]);
    RunMore(fmt, base, s, [e[0], e[1]], e[2]);
    RunMore(fmt, base, s, [e[0], e[1], e[2]], e[3]);
    RunMore(fmt, base, s, [e[0], e[1], e[2], e[3]], e[4]);
    assert [e[0]] + [e[1]] == [e[0], e[1]];
    assert [e[0], e[1]] + [e[2]] == [e[0], e[1], e[2]];
    assert [e[0], e[1], e[2]] + [e[3]] == [e[0], e[1], e[2], e[3]];
    assert [e[0], e[1], e[2], e[3]] + [e[4]] == e;
  }

  /** Packets that are never answered leave the frame of packet 1 alone until its slot comes round again. */
  lemma {:induction false} ManySends(fmt: Format, base: Baselines, s: Session, frame: Frame, got: Frame, k: nat)
    requires Shaped(s) && HasFirst(s, frame, got, 2) && k <= 63
    ensures HasFirst(Run(fmt, base, s, seq(k, _ => ClientSends)), frame, got, 2 + k)
  {
    hide Run;
    var events := seq(k, _ => ClientSends);
    if k == 0 {
      NoEvents(fmt, base, s);
      assert events == [];
    } else {
      ManySends(fmt, base, s, frame, got, k - 1);
      RunMore(fmt, base, s, seq(k - 1, _ => ClientSends), ClientSends);
      assert events == seq(k - 1, _ => ClientSends) + [ClientSends];
    }
  }

  lemma NoEvents(fmt: Format, base: Baselines, s: Session)
    requires Shaped(s)
    ensures Run(fmt, base, s, []) == s
  {
  }

  /** Packet `n` asks for a delta against packet 1, and the world has not changed. */
  function SecondExchange(frame: Frame, n: nat): seq<Event> {
    var request := Request(n, 1, 1);
    [ClientSends, ServerReceives(request), ServerSends(frame, 0),
     ClientReceives(Reply(n, request, [SVC_DELTAPACKETENTITIES, 1] + Short(0), MAX_QWMSGLEN,
                          if Slot(n) == 1 then n else 1, true))]
  }

  lemma AfterSecondExchange(fmt: Format, base: Baselines, s: Session, frame: Frame, got: Frame, n: nat)
    requires Shaped(s) && HasFirst(s, frame, got, n) && n > 1 && got != [] && ValidFrame(frame)
    ensures var t := Run(fmt, base, s, SecondExchange(frame, n));
            && t.client.incoming == n && n in t.sent && t.sent[n] == frame
            && t.client.ring[Slot(n)] == if Slot(n) == 1 then [] else got
  {
    hide EmitFrame, ParseReply, Received, Clip, Run, ValidFrame, Slot, Short;
    var e := SecondExchange(frame, n);
    assert Slot(1) == 1 by { SmallSlot(); }
    var s1 := Happen(fmt, base, s, ClientSends);
    var s2 := Happen(fmt, base, s1, e[1]);
    var s3 := Happen(fmt, base, s2, e[2]);
    NothingChanged(fmt, base, frame);
    assert e[3].reply in s3.replies;
    EmptyDelta(fmt, Received(fmt, base), s3.client.ring, 1);
    FourEvents(fmt, base, s, e);
  }

  lemma SmallSlot()
    ensures Slot(1) == 1
  {
  }

  lemma FourEvents(fmt: Format, base: Baselines, s: Session, e: seq<Event>)
    requires Shaped(s) && |e| == 4
    ensures Run(fmt, base, s, e)
            == Happen(fmt, base, Happen(fmt, base, Happen(fmt, base, Happen(fmt, base, s, e[0]), e[1]), e[2]), e[3])
  {
    hide Happen, Run;
    OneEvent(fmt, base, s, e[0]);
    RunMore(fmt, base, s, [e[0]], e[1]);
    RunMore(fmt, base, s, [e[0], e[1]], e[2]);
    RunMore(fmt, base, s, [e[0], e[1], e[2]], e[3]);
    assert [e[0]] + [e[1]] == [e[0], e[1]];
    assert [e[0], e[1]] + [e[2]] == [e[0], e[1], e[2]];
    assert [e[0], e[1], e[2]] + [e[3]] == e;
  }

  lemma {:induction false} NoChangeNoRecords(fmt: Format, base: Baselines, f: Frame)
    requires ValidFrame(f)
    ensures Emit(fmt, base, f, f) == []
  {
    hide DeltaBytes, RemoveBytes, Emit;
    if f == [] {
      EmitNothing(fmt, base);
    } else {
      EmitEqual(fmt, base, f, f);
      ValidTail(f, 1);
      NoChangeNoRecords(fmt, base, f[1..]);
      DeltaRoundTrip(fmt, f[0].num, f[0].state, f[0].state, false, []);
    }
  }

  lemma NothingChanged(fmt: Format, base: Baselines, frame: Frame)
    requires ValidFrame(frame)
    ensures EmitFrame(fmt, base, 1, frame, frame) == [SVC_DELTAPACKETENTITIES, 1] + Short(0)
    ensures var bytes := [SVC_DELTAPACKETENTITIES, 1] + Short(0);
            Clip(bytes, MAX_QWMSGLEN) == bytes && |bytes| <= MAX_QWMSGLEN + 2
  {
    hide Emit;
    NoChangeNoRecords(fmt, base, frame);
    assert [] + Short(0) == Short(0);
  }

  /** A delta without records leaves the reference as it is. */
  lemma EmptyDelta(fmt: Format, base: Baselines, ring: seq<Frame>, slot: nat)
    requires |ring| == ENTITY_FRAMES && slot < ENTITY_FRAMES
    ensures ParseReply(fmt, base, ring, [SVC_DELTAPACKETENTITIES, slot] + Short(0)) == ring[slot]
  {
    hide Short, ReadHeader;
    var bytes := [SVC_DELTAPACKETENTITIES, slot] + Short(0);
    assert Rest(bytes) == [slot] + Short(0);
    assert Rest(Rest(bytes)) == Short(0) + [];
    assert Skip(bytes, 2) == Skip(Rest(bytes), 1) == Skip(Rest(Rest(bytes)), 0);
    TerminatorEnds([]);
  }

  /** What the client makes of a full frame in a message with some room. */
  lemma FullFrameParses(fmt: Format, base: Baselines, frame: Frame, room: nat)
    requires PlainBaselines(base) && ValidFrame(frame) && room > 0
    ensures var bytes := EmitFrame(fmt, base, -1, [], frame);
            var got := ParseReply(fmt, Received(fmt, base), Begin().client.ring, Clip(bytes, room));
            && (ZerosFrom(bytes, room) ==> got == QuantiseFrame(fmt, frame))
            && (AsReceived(fmt, base, [], frame) ==> (got == frame <==> ZerosFrom(bytes, room)))
  {
    hide QuantiseFrame, QuantiseBaselines, ParseEnts, EmitFrame, Received, Clip, ParseReply, AsReceived, Skip,
         ZerosFrom, Begin;
    BaselinesArrive(fmt, base);
    NothingQuantised(fmt);
    FrameInRoom(fmt, base, -1, [], frame, room);
    ParseKind(fmt, base, Received(fmt, base), Begin().client.ring, -1, [], frame, room);
    if AsReceived(fmt, base, [], frame) {
      ReceivedFrames(fmt, base, [], frame);
    }
  }

  /** What the client makes of a full frame of which everything after the entities `f` is cut. */
  lemma FirstFrameArrives(fmt: Format, base: Baselines, f: Frame, g: Frame, used: nat)
    requires PlainBaselines(base) && ValidFrame(f + g)
    requires var bytes := EmitFrame(fmt, base, -1, [], f);
             Room(used) + 2 == |bytes| || (g == [] && ZerosFrom(bytes, Room(used)) && Room(used) > 0)
    ensures ParseReply(fmt, Received(fmt, base), Begin().client.ring, FirstReply(fmt, base, f + g, used).bytes)
            == QuantiseFrame(fmt, f)
  {
    hide QuantiseFrame, ParseEnts, Emit, Received, Short, Clip, ParseReply, AsReceived, ZerosFrom, Begin;
    ValidPrefix(f, g);
    var room := Room(used);
    var whole, cut := EmitFrame(fmt, base, -1, [], f + g), EmitFrame(fmt, base, -1, [], f);
    EmitSum(fmt, base, f, g);
    assert Clip(whole, room) == Clip(cut, room) by {
      if g == [] {
        assert f + g == f;
      } else {
        SameCut([SVC_PACKETENTITIES], Emit(fmt, base, [], f), Emit(fmt, base, [], g));
      }
    }
    if room + 2 == |cut| {
      TerminatorIsZeros([SVC_PACKETENTITIES] + Emit(fmt, base, [], f));
      assert cut == [SVC_PACKETENTITIES] + Emit(fmt, base, [], f) + Short(0);
    }
    FullFrameParses(fmt, base, f, room);
  }

  lemma TerminatorIsZeros(s: seq<Byte>)
    ensures ZerosFrom(s + Short(0), |s|)
  {
  }

  lemma SameCut(kind: seq<Byte>, a: seq<Byte>, b: seq<Byte>)
    ensures Clip(kind + (a + b + Short(0)), |kind + a|) == Clip(kind + (a + Short(0)), |kind + a|)
  {
  }

  lemma ValidPrefix(f: Frame, g: Frame)
    requires ValidFrame(f + g)
    ensures ValidFrame(f) && ValidFrame(g)
  {
    assert forall i :: 0 <= i < |f| ==> (f + g)[i] == f[i];
    assert forall i :: 0 <= i < |g| ==> (f + g)[|f| + i] == g[i];
  }

  lemma {:induction false} EmitSum(fmt: Format, base: Baselines, f: Frame, g: Frame)
    requires ValidFrame(f + g)
    ensures Emit(fmt, base, [], f + g) == Emit(fmt, base, [], f) + Emit(fmt, base, [], g)
  {
    hide Emit, DeltaBytes;
    if f == [] {
      EmitNothing(fmt, base);
      assert f + g == g && [] + Emit(fmt, base, [], g) == Emit(fmt, base, [], g);
    } else {
      assert (f + g)[1..] == f[1..] + g && (f + g)[0] == f[0];
      ValidTail(f + g, 1);
      EmitSum(fmt, base, f[1..], g);
      EmitAdd(fmt, base, [], f + g);
      EmitAdd(fmt, base, [], f);
    }
  }

  lemma {:induction false} OnlySends(fmt: Format, base: Baselines, s: Session, k: nat)
    requires Shaped(s) && s.client.ring == Begin().client.ring
    ensures var t := Run(fmt, base, s, seq(k, _ => ClientSends));
            t.client == s.client.(outgoing := s.client.outgoing + k) && t.replies == s.replies
  {
    hide Run;
    var events := seq(k, _ => ClientSends);
    if k == 0 {
      NoEvents(fmt, base, s);
      assert events == [];
    } else {
      OnlySends(fmt, base, s, k - 1);
      RunMore(fmt, base, s, seq(k - 1, _ => ClientSends), ClientSends);
      assert events == seq(k - 1, _ => ClientSends) + [ClientSends];
    }
  }

  /**
   * A client can ask for a delta against a frame more than 64 packets old, in a run from the start: the answer
   * to its first packet arrives when its slot has been wiped for another, and fills it again.
   */
  lemma LateAnswerRefills(fmt: Format, base: Baselines, frame: Frame)
    requires PlainBaselines(base) && ValidFrame(frame) && frame != []
    requires ZerosFrom(EmitFrame(fmt, base, -1, [], frame), MAX_QWMSGLEN)
    ensures var first := FirstExchange(fmt, base, frame, 0);
            var events := first[..4] + seq(64, _ => ClientSends) + [first[4]] + [ClientSends];
            Request(66, 1, 1) in Run(fmt, base, Begin(), events).requests
  {
    hide EmitFrame, ParseReply, Received, Clip, Run, ValidFrame, QuantiseFrame, PlainBaselines;
    assert frame + [] == frame;
    FirstFrameArrives(fmt, base, frame, [], 0);
    var first, many := FirstExchange(fmt, base, frame, 0), seq(64, _ => ClientSends);
    var s := Begin();
    var s1 := Happen(fmt, base, s, first[0]);
    var s2 := Happen(fmt, base, s1, first[1]);
    assert s2.client.ring == s.client.ring;
    var s3 := Happen(fmt, base, s2, first[2]);
    var s4 := Happen(fmt, base, s3, first[3]);
    FourEvents(fmt, base, s, first[..4]);
    OnlySends(fmt, base, s4, 64);
    RunSum(fmt, base, s, first[..4], many);
    RunMore(fmt, base, s, first[..4] + many, first[4]);
    RunMore(fmt, base, s, first[..4] + many + [first[4]], ClientSends);
    assert |QuantiseFrame(fmt, frame)| == |frame| by { QuantisedLength(fmt, frame); }
  }

  lemma QuantisedLength(fmt: Format, frame: Frame)
    ensures |QuantiseFrame(fmt, frame)| == |frame|
  {
  }

  /**
   * The limit of 64 is sharp, in a run from the start.  A client that has sent 64 packets since the last
   * frame it received still asks for a delta against it, but sending that request wipes the slot, and the
   * server stores the new frame over the old one: an unchanged world comes back as an empty frame.
   */
  lemma SixtyFourIsTooLate(fmt: Format, base: Baselines, frame: Frame)
    requires PlainBaselines(base) && ValidFrame(frame) && frame != []
    requires ZerosFrom(EmitFrame(fmt, base, -1, [], frame), MAX_QWMSGLEN)
    ensures var events := FirstExchange(fmt, base, frame, 0) + seq(63, _ => ClientSends) + SecondExchange(frame, 65);
            var t := Run(fmt, base, Begin(), events);
            && t.client.incoming == 65 && 65 in t.sent && t.sent[65] == frame
            && t.client.ring[Slot(65)] == [] != QuantiseFrame(fmt, frame)
  {
    hide Run, HasFirst, FirstExchange, FirstReply, SecondExchange, ParseReply, EmitFrame, Begin, QuantiseFrame,
         ValidFrame;
    AfterFirstExchange(fmt, base, frame, 0);
    assert frame + [] == frame;
    FirstFrameArrives(fmt, base, frame, [], 0);
    var first, many := FirstExchange(fmt, base, frame, 0), seq(63, _ => ClientSends);
    var s := Run(fmt, base, Begin(), first);
    ManySends(fmt, base, s, frame, QuantiseFrame(fmt, frame), 63);
    RunSum(fmt, base, Begin(), first, many);
    AfterSecondExchange(fmt, base, Run(fmt, base, s, many), frame, QuantiseFrame(fmt, frame), 65);
    RunSum(fmt, base, Begin(), first + many, SecondExchange(frame, 65));
    assert Slot(65) == 1;
  }

  /**
   * A frame that is cut is wrong, and stays wrong: when the message had room for the entities `f` only, the
   * client never learns of the last entity, although the next answer is whole and in time, because the
   * server takes it to have the whole frame.
   */
  lemma CutFrameStaysWrong(fmt: Format, base: Baselines, f: Frame, last: Ent, used: nat)
    requires PlainBaselines(base) && f != [] && ValidFrame(f + [last])
    requires Room(used) + 2 == |EmitFrame(fmt, base, -1, [], f)|
    ensures var frame := f + [last];
            var t := Run(fmt, base, Begin(), FirstExchange(fmt, base, frame, used) + SecondExchange(frame, 2));
            && t.client.incoming == 2 && 2 in t.sent && t.sent[2] == frame
            && t.client.ring[Slot(2)] == QuantiseFrame(fmt, f) != QuantiseFrame(fmt, frame)
  {
    hide Run, HasFirst, FirstExchange, FirstReply, SecondExchange, ParseReply, EmitFrame, Begin, QuantiseFrame,
         ValidFrame;
    var frame := f + [last];
    AfterFirstExchange(fmt, base, frame, used);
    FirstFrameArrives(fmt, base, f, [last], used);
    var first := FirstExchange(fmt, base, frame, used);
    AfterSecondExchange(fmt, base, Run(fmt, base, Begin(), first), frame, QuantiseFrame(fmt, f), 2);
    RunSum(fmt, base, Begin(), first, SecondExchange(frame, 2));
    assert Slot(2) != 1;
    assert |QuantiseFrame(fmt, f)| < |QuantiseFrame(fmt, frame)|;
  }

  lemma FirstGot(s: Session, frame: Frame, outgoing: nat, bytes: seq<Byte>, fmt: Format, base: Baselines)
    requires Shaped(s)
    requires HasFirst(s, frame, ParseReply(fmt, Received(fmt, base), Begin().client.ring, bytes), outgoing)
    ensures HasFirst(s, frame, s.client.ring[1], outgoing) && s.client.incoming == 1
    ensures s.client.ring[1] == ParseReply(fmt, Received(fmt, base), Begin().client.ring, bytes)
  {
    hide ParseReply, Received, Begin;
  }

  /**
   * In general: a frame of which a byte that is not zero is cut is wrong, and unless it is empty it stays so
   * after the next answer, although that is whole and in time, and the world has not changed.
   */
  lemma CutStaysWrong(fmt: Format, base: Baselines, frame: Frame, used: nat)
    requires PlainBaselines(base) && ValidFrame(frame) && AsReceived(fmt, base, [], frame) && used < MAX_QWMSGLEN
    requires !ZerosFrom(EmitFrame(fmt, base, -1, [], frame), Room(used))
    ensures var first := FirstExchange(fmt, base, frame, used);
            var s := Run(fmt, base, Begin(), first);
            var t := Run(fmt, base, Begin(), first + SecondExchange(frame, 2));
            && s.client.incoming == 1 && s.client.ring[1] != frame
            && (s.client.ring[1] != [] ==>
                  t.client.incoming == 2 && 2 in t.sent && t.sent[2] == frame && t.client.ring[2] == s.client.ring[1])
  {
    hide Run, HasFirst, FirstExchange, SecondExchange, ParseReply, EmitFrame, Begin, QuantiseFrame, ValidFrame,
         AsReceived, ZerosFrom, Clip, Received;
    FullFrameParses(fmt, base, frame, Room(used));
    AfterFirstExchange(fmt, base, frame, used);
    var first := FirstExchange(fmt, base, frame, used);
    var s := Run(fmt, base, Begin(), first);
    FirstGot(s, frame, 2, FirstReply(fmt, base, frame, used).bytes, fmt, base);
    if s.client.ring[1] != [] {
      AfterSecondExchange(fmt, base, s, frame, s.client.ring[1], 2);
      RunSum(fmt, base, Begin(), first, SecondExchange(frame, 2));
      assert Slot(2) == 2;
    }
  }
}
