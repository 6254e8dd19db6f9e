/**
 * The input buffer of an MVD stream (fteqtv/source.c).  Data is forwarded up to `forwardpoint` and
 * parsed from the front; the two ends move at different speeds, by two separate readings of the
 * packet framing, and the early forwarding can be switched off and on at any time.
 */
module StreamInput {
  import opened Msg
  import opened ProxyBuffer

  datatype Input = Input(
    buffer: seq<Byte>,
    forwardpoint: nat,
    forwarded: seq<seq<Byte>>)     // history: the blocks given to SV_ForwardStream

  // ---------- Packet framing ----------

  /** Where the length of a packet is stored, 0 when packets of its type have a fixed size. */
  function LengthOffset(demType: Byte): nat {
    match demType % 8
    case 2 => 0
    case 3 => 6
    case _ => 2
  }

  /** SV_EarlyParse: the size of the packet at the front, 0 while it is incomplete. */
  function EarlyLength(s: seq<Byte>): (n: nat)
    ensures n <= |s|
  {
    if |s| < 2 then 0
    else
      var ofs := LengthOffset(s[1]);
      if ofs > 0 then
        if ofs + 4 > |s| then 0
        else
          var length := GetLong(s[ofs..]) + ofs + 4;
          if |s| < length then 0 else length
      else if |s| < 10 then 0 else 10
  }

  datatype Parsed = Packet(size: nat) | Incomplete | Corrupt

  /** QTV_Run: the same for the parser, which also refuses oversized packets. */
  function RunLength(s: seq<Byte>): (p: Parsed)
    ensures p.Packet? ==> 0 < p.size <= |s|
  {
    if |s| < 2 then Incomplete
    else if s[1] % 8 == 2 then
      if |s| < 10 then Incomplete else Packet(10)
    else
      var ofs := if s[1] % 8 == 3 then 6 else 2;
      if |s| < ofs + 4 then Incomplete
      else
        var length := GetLong(s[ofs..]);
        if length > MAX_MSGLEN then Corrupt
        else if length + ofs + 4 > |s| then Incomplete
        else Packet(ofs + 4 + length)
  }

  /** The bytes of the whole packets at the front. */
  function Whole(s: seq<Byte>): (n: nat)
    ensures n <= |s|
  {
    var k := EarlyLength(s);
    if k == 0 then 0 else k + Whole(s[k..])
  }

  /** A packet of proxy data, which is not to wait for the parser. */
  predicate IsData(demType: Byte) {
    demType % 8 == 6 && demType / 8 != 0
  }

  /** What the parser gives to ParseMessage when it is due; proxy data only when a demo is played. */
  predicate ParsedWhenDue(demType: Byte, demo: bool) {
    Parsable(demType) && (demo || !IsData(demType))
  }

  /** The other types carry no message for it. */
  predicate Parsable(demType: Byte) {
    demType % 8 !in {0, 2, 7}
  }

  /** The packets of proxy data among the whole packets at the front. */
  function Urgent(s: seq<Byte>): seq<seq<Byte>> {
    var k := EarlyLength(s);
    if k == 0 then [] else (if IsData(s[1]) then [s[..k]] else []) + Urgent(s[k..])
  }

  // ---------- Operations on the input as a value ----------

  /** Net_ReadStream with the bytes that arrived. */
  function AfterRead(i: Input, chunk: seq<Byte>, late: bool): Input {
    var buffer := i.buffer + chunk;
    var k := if late || i.forwardpoint > |buffer| then 0 else Whole(buffer[i.forwardpoint..]);
    if k > 0 then
      Input(buffer, i.forwardpoint + k, i.forwarded + [buffer[i.forwardpoint..i.forwardpoint + k]])
    else i.(buffer := buffer)
  }

  /** One packet of QTV_Run's loop: what was not forwarded yet is forwarded, then destroyed. */
  function AfterRun(i: Input): Input {
    match RunLength(i.buffer)
    case Incomplete => i
    case Corrupt => i.(buffer := [], forwardpoint := 0)
    case Packet(n) =>
      if i.forwardpoint < n then Input(i.buffer[n..], i.forwardpoint, i.forwarded + [i.buffer[..n]])
      else Input(i.buffer[n..], i.forwardpoint - n, i.forwarded)
  }

  // ---------- Streams of packets ----------

  /** A well-formed packet, as both readings of the framing see it. */
  ghost predicate WellFormed(p: seq<Byte>) {
    && |p| >= 2
    && EarlyLength(p) == |p|
    && (LengthOffset(p[1]) > 0 ==> GetLong(p[LengthOffset(p[1])..]) <= MAX_MSGLEN)
  }

  /**
   * The well-formed packets: ten bytes of type 2, and any other type with a header, with four bytes more for type 3,
   * and as many bytes as the length at its end says, 8192 at most.
   */
  lemma WellFormedExactly(p: seq<Byte>)
    ensures WellFormed(p)
            <==> && |p| >= 2
                 && if p[1] % 8 == 2 then |p| == 10
                    else
                      var header := if p[1] % 8 == 3 then 10 else 6;
                      |p| >= header && GetLong(p[header - 4..]) == |p| - header <= 8192
  {
    hide GetLong;
  }

  /** A packet with more than 8192 bytes ends the parse: all that is in the buffer is thrown away. */
  lemma OversizedIsRefused(i: Input)
    requires |i.buffer| >= 10 && i.buffer[1] % 8 != 2
    requires GetLong(i.buffer[if i.buffer[1] % 8 == 3 then 6 else 2..]) > 8192
    ensures RunLength(i.buffer) == Corrupt
    ensures AfterRun(i) == Input([], 0, i.forwarded)
  {
    hide GetLong;
  }

  /**
   * What Prox_SendMessage makes is a packet for its own parsers, if the message has at most 8192 bytes, except for two
   * types: one of type 2 would need four bytes, and for type 3 the length stands where the parsers look for the
   * player mask, so it is read only if mask and length are the same number.
   */
  lemma MessageIsPacket(demType: Byte, mask: nat, body: seq<Byte>)
    requires demType % 8 != 3 || demType == 3
    requires |body| < 0x1_0000_0000
    ensures WellFormed(MessageHeader(demType, |body|, mask) + body)
            <==> if demType % 8 == 2 then |body| == 4
                 else |body| <= 8192 && (demType == 3 ==> mask % 0x1_0000_0000 == |body|)
  {
    hide GetLong, Long;
    var p := MessageHeader(demType, |body|, mask) + body;
    WellFormedExactly(p);
    if demType == 3 {
      assert p[6..] == Long(mask) + body;
      LongRoundTrip(mask, body);
    } else {
      assert p[2..] == Long(|body|) + body;
      LongRoundTrip(|body|, body);
    }
  }

  lemma LongPrefix(s: seq<Byte>, t: seq<Byte>)
    requires |s| >= 4 && |t| >= 4 && s[..4] == t[..4]
    ensures GetLong(s) == GetLong(t)
  {
    assert s[0] == s[..4][0] && s[1] == s[..4][1] && s[2] == s[..4][2] && s[3] == s[..4][3];
    assert t[0] == t[..4][0] && t[1] == t[..4][1] && t[2] == t[..4][2] && t[3] == t[..4][3];
  }

  /** Both readings find a whole packet, whatever follows it. */
  lemma WholePacketFound(p: seq<Byte>, rest: seq<Byte>)
    requires WellFormed(p)
    ensures EarlyLength(p + rest) == |p| && RunLength(p + rest) == Packet(|p|)
  {
    hide GetLong;
    var ofs := LengthOffset(p[1]);
    if ofs > 0 {
      assert (p + rest)[ofs..][..4] == p[ofs..][..4];
      LongPrefix((p + rest)[ofs..], p[ofs..]);
    }
  }

  /** Neither reading takes a truncated packet for a whole one. */
  lemma TruncatedPacketWaits(p: seq<Byte>, n: nat)
    requires WellFormed(p) && n < |p|
    ensures EarlyLength(p[..n]) == 0 && RunLength(p[..n]) == Incomplete
  {
    hide GetLong;
    if n >= 2 {
      var ofs := LengthOffset(p[1]);
      if ofs > 0 && n >= ofs + 4 {
        assert p[..n][ofs..][..4] == p[ofs..][..4];
        LongPrefix(p[..n][ofs..], p[ofs..]);
      }
    }
  }

  /** How many of the packets are whole within the first `n` bytes. */
  function Complete(packets: seq<seq<Byte>>, n: nat): (k: nat)
    ensures k <= |packets|
  {
    if packets == [] || |packets[0]| > n then 0 else 1 + Complete(packets[1..], n - |packets[0]|)
  }

  /** The early reading advances exactly over the whole packets. */
  lemma {:induction false} WholeIsComplete(packets: seq<seq<Byte>>, n: nat)
    requires (forall p :: p in packets ==> WellFormed(p)) && n <= |Flat(packets)|
    ensures var k := Complete(packets, n);
            Whole(Flat(packets)[..n]) == |Flat(packets[..k])| <= n
    ensures Flat(packets[..Complete(packets, n)]) == Flat(packets)[..|Flat(packets[..Complete(packets, n)])|]
  {
    hide EarlyLength, WellFormed;
    var s := Flat(packets)[..n];
    if packets == [] {
      NoPacket();
    } else if |packets[0]| > n {
      assert s == packets[0][..n];
      TruncatedPacketWaits(packets[0], n);
    } else {
      var m := n - |packets[0]|;
      WholeIsComplete(packets[1..], m);
      FirstComplete(packets, n);
      FirstWhole(packets[0], Flat(packets[1..]), m);
      assert s == (packets[0] + Flat(packets[1..]))[..|packets[0]| + m];
    }
  }

  lemma FirstWhole(p: seq<Byte>, rest: seq<Byte>, m: nat)
    requires WellFormed(p) && m <= |rest|
    ensures Whole((p + rest)[..|p| + m]) == |p| + Whole(rest[..m])
  {
    hide EarlyLength, WellFormed;
    var s := (p + rest)[..|p| + m];
    assert s == p + rest[..m] && s[|p|..] == rest[..m];
    WholePacketFound(p, rest[..m]);
    Nonempty(p);
  }

  lemma FirstComplete(packets: seq<seq<Byte>>, n: nat)
    requires packets != [] && |packets[0]| <= n
    ensures Flat(packets[..Complete(packets, n)])
            == packets[0] + Flat(packets[1..][..Complete(packets[1..], n - |packets[0]|)])
  {
    var k := Complete(packets[1..], n - |packets[0]|);
    assert packets[..k + 1] == [packets[0]] + packets[1..][..k];
    FlatAppend([packets[0]], packets[1..][..k]);
    FlatOne(packets[0]);
  }

  lemma NoPacket()
    ensures EarlyLength([]) == 0
  {
  }

  lemma Nonempty(p: seq<Byte>)
    requires WellFormed(p)
    ensures p != []
  {
  }

  // ---------- Runs ----------

  /**
   * A stream being read: the buffer, how many bytes have arrived, how many packets were parsed (and so
   * destroyed) and how many were handed to SV_ForwardStream.
   */
  datatype Reading = Reading(input: Input, arrived: nat, parsed: nat, passed: nat)

  /** `Read` is a read of at most `n` bytes; `late` is the setting of the cluster at that moment. */
  datatype Event = Read(n: nat, late: bool) | Parse

  ghost function Happen(packets: seq<seq<Byte>>, w: Reading, e: Event): Reading {
    match e
    case Read(n, late) =>
      if w.arrived > |Flat(packets)| || |w.input.buffer| > MAX_PROXY_BUFFER then w
      else
        var k := Min(n, Min(MAX_PROXY_BUFFER - |w.input.buffer|, |Flat(packets)| - w.arrived));
        var i := AfterRead(w.input, Flat(packets)[w.arrived..w.arrived + k], late);
        Reading(i, w.arrived + k, w.parsed, if late then w.passed else Passed(packets, w.arrived + k))
    case Parse =>
      var i := AfterRun(w.input);
      if RunLength(w.input.buffer).Packet?
      then Reading(i, w.arrived, w.parsed + 1, if w.passed < w.parsed + 1 then w.parsed + 1 else w.passed)
      else w.(input := i)
  }

  /** How many packets are complete once `n` bytes have arrived. */
  function Passed(packets: seq<seq<Byte>>, n: nat): nat {
    Complete(packets, n)
  }

  function Start(): Reading {
    Reading(Input([], 0, []), 0, 0, 0)
  }

  function Offset(packets: seq<seq<Byte>>, k: nat): nat
    requires k <= |packets|
  {
    |Flat(packets[..k])|
  }

  /** Each block handed on is a run of whole packets. */
  ghost predicate WholeRuns(packets: seq<seq<Byte>>, blocks: seq<seq<Byte>>) {
    forall i :: 0 <= i < |blocks| ==>
      exists a, b :: 0 <= a < b <= |packets| && blocks[i] == Flat(packets[a..b])
  }

  /** The forward point lies on a packet boundary at or after the parse point, within the buffer. */
  ghost predicate OnTrack(packets: seq<seq<Byte>>, w: Reading) {
    && (forall p :: p in packets ==> WellFormed(p))
    && w.parsed <= w.passed <= |packets|
    && Offset(packets, w.parsed) <= Offset(packets, w.passed) <= w.arrived <= |Flat(packets)|
    && w.input.buffer == Flat(packets)[Offset(packets, w.parsed)..w.arrived]
    && w.input.forwardpoint == Offset(packets, w.passed) - Offset(packets, w.parsed)
    && |w.input.buffer| <= MAX_PROXY_BUFFER
    && Flat(w.input.forwarded) == Flat(packets[..w.passed])
    && WholeRuns(packets, w.input.forwarded)
  }

  lemma FlatSplit(packets: seq<seq<Byte>>, a: nat, b: nat)
    requires a <= b <= |packets|
    ensures Flat(packets[..b]) == Flat(packets[..a]) + Flat(packets[a..b])
    ensures Flat(packets) == Flat(packets[..b]) + Flat(packets[b..])
  {
    assert packets[..b] == packets[..a] + packets[a..b];
    FlatAppend(packets[..a], packets[a..b]);
    assert packets == packets[..b] + packets[b..];
    FlatAppend(packets[..b], packets[b..]);
  }

  /** The packets between two boundaries are the bytes between their offsets. */
  lemma FlatBetween(packets: seq<seq<Byte>>, a: nat, b: nat)
    requires a <= b <= |packets|
    ensures Offset(packets, a) <= Offset(packets, b) <= |Flat(packets)|
    ensures Flat(packets[a..b]) == Flat(packets)[Offset(packets, a)..Offset(packets, b)]
    ensures Flat(packets[b..]) == Flat(packets)[Offset(packets, b)..]
  {
    FlatSplit(packets, a, b);
  }

  /** Counting from a boundary that has been reached gives the same total. */
  lemma {:induction false} CompleteFrom(packets: seq<seq<Byte>>, b: nat, n: nat)
    requires b <= |packets| && Offset(packets, b) <= n
    ensures Complete(packets, n) == b + Complete(packets[b..], n - Offset(packets, b))
  {
    if b == 0 {
      assert packets[..0] == [] && packets[0..] == packets;
    } else {
      assert packets[..b] == [packets[0]] + packets[1..][..b - 1];
      FlatAppend([packets[0]], packets[1..][..b - 1]);
      FlatOne(packets[0]);
      assert packets[b..] == packets[1..][b - 1..];
      CompleteFrom(packets[1..], b - 1, n - |packets[0]|);
    }
  }

  /** What one early reading hands on: everything up to the last boundary that has arrived. */
  lemma EarlyReading(packets: seq<seq<Byte>>, b: nat, n: nat)
    requires (forall p :: p in packets ==> WellFormed(p))
    requires b <= |packets| && Offset(packets, b) <= n <= |Flat(packets)|
    ensures var c := Passed(packets, n);
            && b <= c <= |packets| && Offset(packets, c) <= n
            && Whole(Flat(packets)[Offset(packets, b)..n]) == Offset(packets, c) - Offset(packets, b)
            && (c < |packets| ==> n < Offset(packets, c + 1))
  {
    hide Whole, WellFormed, Complete, Flat;
    var rest := packets[b..];
    var m := n - Offset(packets, b);
    FlatBetween(packets, b, b);
    CompleteFrom(packets, b, n);
    var k := Complete(rest, m);
    assert Flat(packets)[Offset(packets, b)..n] == Flat(rest)[..m];
    WholeIsComplete(rest, m);
    NextIncomplete(rest, m);
    OffsetFrom(packets, b, k);
    if b + k < |packets| {
      OffsetFrom(packets, b, k + 1);
    }
  }

  lemma OffsetFrom(packets: seq<seq<Byte>>, b: nat, k: nat)
    requires b + k <= |packets|
    ensures Offset(packets, b + k) == Offset(packets, b) + |Flat(packets[b..][..k])|
  {
    FlatSplit(packets, b, b + k);
    assert packets[b..][..k] == packets[b..b + k];
  }

  lemma {:induction false} NextIncomplete(packets: seq<seq<Byte>>, n: nat)
    ensures var k := Complete(packets, n); k < |packets| ==> n < |Flat(packets[..k + 1])|
  {
    if packets != [] {
      var k := Complete(packets, n);
      if |packets[0]| <= n {
        NextIncomplete(packets[1..], n - |packets[0]|);
        if k < |packets| {
          assert packets[..k + 1] == [packets[0]] + packets[1..][..k];
          FlatAppend([packets[0]], packets[1..][..k]);
          FlatOne(packets[0]);
        }
      } else {
        assert packets[..1] == [packets[0]];
        FlatOne(packets[0]);
      }
    }
  }

  lemma MoreWholeRuns(packets: seq<seq<Byte>>, blocks: seq<seq<Byte>>, a: nat, b: nat)
    requires WholeRuns(packets, blocks) && a < b <= |packets|
    ensures WholeRuns(packets, blocks + [Flat(packets[a..b])])
  {
    var more := blocks + [Flat(packets[a..b])];
    forall i | 0 <= i < |more|
      ensures exists c, d :: 0 <= c < d <= |packets| && more[i] == Flat(packets[c..d])
    {
      if i < |blocks| {
        assert more[i] == blocks[i];
      }
    }
  }

  /** Handing on the packets from `a` to `b` extends what was handed on. */
  lemma HandOn(packets: seq<seq<Byte>>, blocks: seq<seq<Byte>>, a: nat, b: nat)
    requires a < b <= |packets| && Flat(blocks) == Flat(packets[..a]) && WholeRuns(packets, blocks)
    ensures var more := blocks + [Flat(packets[a..b])];
            Flat(more) == Flat(packets[..b]) && WholeRuns(packets, more)
  {
    FlatAppend(blocks, [Flat(packets[a..b])]);
    FlatOne(Flat(packets[a..b]));
    FlatSplit(packets, a, b);
    MoreWholeRuns(packets, blocks, a, b);
  }

  lemma SubSlice(all: seq<Byte>, s: nat, n: nat, p: nat, q: nat)
    requires s <= p <= q <= n <= |all|
    ensures all[s..n][p - s..q - s] == all[p..q]
  {
    var left, right := all[s..n][p - s..q - s], all[p..q];
    forall k | 0 <= k < q - p
      ensures left[k] == right[k]
    {
      assert all[s..n][p - s + k] == all[p + k];
    }
  }

  lemma TakeDrop(all: seq<Byte>, x: nat, n: nat)
    requires x <= n <= |all|
    ensures all[x..n] == all[x..][..n - x]
  {
  }

  lemma JoinSlices(s: seq<Byte>, i: nat, j: nat, k: nat)
    requires i <= j <= k <= |s|
    ensures s[i..j] + s[j..k] == s[i..k]
  {
  }

  lemma ReadOnTrack(packets: seq<seq<Byte>>, w: Reading, n: nat, late: bool)
    requires OnTrack(packets, w)
    ensures OnTrack(packets, Happen(packets, w, Read(n, late)))
  {
    hide Flat, Whole, WellFormed, WholeRuns, Passed, AfterRun, Offset;
    var k := Min(n, Min(MAX_PROXY_BUFFER - |w.input.buffer|, |Flat(packets)| - w.arrived));
    var arrived := w.arrived + k;
    JoinSlices(Flat(packets), Offset(packets, w.parsed), w.arrived, arrived);
    if !late {
      EarlyPart(packets, w, arrived);
      var c := Passed(packets, arrived);
      if w.passed < c {
        HandOn(packets, w.input.forwarded, w.passed, c);
      }
    }
  }

  /** What an early reading finds after the forward point: the packets up to the last boundary. */
  lemma EarlyPart(packets: seq<seq<Byte>>, w: Reading, arrived: nat)
    requires OnTrack(packets, w) && w.arrived <= arrived <= |Flat(packets)|
    ensures var c, start := Passed(packets, arrived), Offset(packets, w.parsed);
            var buffer, at := Flat(packets)[start..arrived], w.input.forwardpoint;
            var k := Whole(buffer[at..]);
            && w.passed <= c <= |packets| && Offset(packets, c) <= arrived
            && k == Offset(packets, c) - Offset(packets, w.passed)
            && (w.passed < c ==> k > 0 && buffer[at..at + k] == Flat(packets[w.passed..c]))
            && (w.passed == c ==> k == 0)
  {
    hide Flat, Whole, WellFormed, WholeRuns, Passed, Offset;
    var start, point := Offset(packets, w.parsed), Offset(packets, w.passed);
    var all, c := Flat(packets), Passed(packets, arrived);
    EarlyReading(packets, w.passed, arrived);
    SubSlice(all, start, arrived, point, arrived);
    assert all[start..arrived][point - start..] == all[point..arrived];
    if w.passed < c {
      PassedLonger(packets, w.passed, c);
      FlatBetween(packets, w.passed, c);
      SubSlice(all, start, arrived, point, Offset(packets, c));
    }
  }

  /** A later boundary is farther along, as no packet is empty. */
  lemma {:induction false} PassedLonger(packets: seq<seq<Byte>>, a: nat, b: nat)
    requires a < b <= |packets| && forall p :: p in packets ==> WellFormed(p)
    ensures Offset(packets, a) < Offset(packets, b)
  {
    FlatSplit(packets, a, b);
    assert packets[a..b][0] == packets[a] && packets[a] in packets;
    Nonempty(packets[a]);
  }

  /** The parser finds the packet at its boundary exactly when it has arrived whole. */
  lemma RunFindsPacket(packets: seq<seq<Byte>>, a: nat, n: nat)
    requires (forall p :: p in packets ==> WellFormed(p))
    requires a <= |packets| && Offset(packets, a) <= n <= |Flat(packets)|
    ensures RunLength(Flat(packets)[Offset(packets, a)..n])
            == if a < |packets| && Offset(packets, a + 1) <= n then Packet(|packets[a]|) else Incomplete
    ensures a < |packets| ==> Offset(packets, a + 1) == Offset(packets, a) + |packets[a]|
  {
    hide RunLength, WellFormed, Flat;
    FlatBetween(packets, a, a);
    if a == |packets| {
      assert Flat(packets)[Offset(packets, a)..n] == [] by { FlatBetween(packets, a, |packets|); WholeFlat(packets); }
      RunNothing();
    } else {
      FlatSplit(packets, a, a + 1);
      assert packets[a..a + 1] == [packets[a]];
      FlatOne(packets[a]);
      assert packets[a] in packets;
      RunAtFront(packets[a], Flat(packets[a + 1..]), n - Offset(packets, a));
      TakeDrop(Flat(packets), Offset(packets, a), n);
      FromBoundary(packets, a);
    }
  }

  lemma FromBoundary(packets: seq<seq<Byte>>, a: nat)
    requires a < |packets|
    ensures Offset(packets, a) <= |Flat(packets)|
    ensures Flat(packets)[Offset(packets, a)..] == packets[a] + Flat(packets[a + 1..])
  {
    FlatBetween(packets, a, a);
    assert packets[a..][0] == packets[a] && packets[a..][1..] == packets[a + 1..];
  }

  lemma WholeFlat(packets: seq<seq<Byte>>)
    ensures Offset(packets, |packets|) == |Flat(packets)|
  {
    assert packets[..|packets|] == packets;
  }

  lemma RunAtFront(p: seq<Byte>, rest: seq<Byte>, m: nat)
    requires WellFormed(p) && m <= |p| + |rest|
    ensures RunLength((p + rest)[..m]) == if |p| <= m then Packet(|p|) else Incomplete
  {
    hide RunLength, WellFormed;
    if m < |p| {
      assert (p + rest)[..m] == p[..m];
      TruncatedPacketWaits(p, m);
    } else {
      assert (p + rest)[..m] == p + rest[..m - |p|];
      WholePacketFound(p, rest[..m - |p|]);
    }
  }

  lemma RunNothing()
    ensures RunLength([]) == Incomplete
  {
  }

  lemma ParseOnTrack(packets: seq<seq<Byte>>, w: Reading)
    requires OnTrack(packets, w)
    ensures OnTrack(packets, Happen(packets, w, Parse))
    ensures RunLength(w.input.buffer).Packet? ==>
              var x := Happen(packets, w, Parse); x.parsed == w.parsed + 1 && w.parsed < x.passed
  {
    hide Flat, RunLength, WellFormed, WholeRuns;
    RunFindsPacket(packets, w.parsed, w.arrived);
    if RunLength(w.input.buffer).Packet? {
      var a := w.parsed;
      FlatBetween(packets, a, a + 1);
      SubSlice(Flat(packets), Offset(packets, a), w.arrived, Offset(packets, a + 1), w.arrived);
      assert w.input.buffer[|packets[a]|..] == Flat(packets)[Offset(packets, a + 1)..w.arrived];
      if w.passed == a {
        SubSlice(Flat(packets), Offset(packets, a), w.arrived, Offset(packets, a), Offset(packets, a + 1));
        assert w.input.buffer[..|packets[a]|] == Flat(packets[a..a + 1]);
        HandOn(packets, w.input.forwarded, a, a + 1);
        assert packets[a] in packets;
        Nonempty(packets[a]);
      } else {
        FlatBetween(packets, a + 1, w.passed);
      }
    }
  }

  lemma HappenOnTrack(packets: seq<seq<Byte>>, w: Reading, e: Event)
    requires OnTrack(packets, w)
    ensures OnTrack(packets, Happen(packets, w, e))
  {
    match e
    case Read(n, late) => ReadOnTrack(packets, w, n, late);
    case Parse => ParseOnTrack(packets, w);
  }

  ghost function Run(packets: seq<seq<Byte>>, w: Reading, events: seq<Event>): Reading
    decreases |events|
  {
    if events == [] then w else Run(packets, Happen(packets, w, events[0]), events[1..])
  }

  lemma {:induction false} RunOnTrack(packets: seq<seq<Byte>>, w: Reading, events: seq<Event>)
    requires OnTrack(packets, w)
    ensures OnTrack(packets, Run(packets, w, events))
    decreases |events|
  {
    hide OnTrack, Happen;
    if events != [] {
      HappenOnTrack(packets, w, events[0]);
      RunOnTrack(packets, Happen(packets, w, events[0]), events[1..]);
    }
  }

  lemma StartOnTrack(packets: seq<seq<Byte>>)
    requires forall p :: p in packets ==> WellFormed(p)
    ensures OnTrack(packets, Start())
  {
    hide Flat, WellFormed;
    assert packets[..0] == [];
    FlatNone();
  }

  // ---------- Reading early, and reading all ----------

  ghost predicate CaughtUp(packets: seq<seq<Byte>>, w: Reading) {
    OnTrack(packets, w) && w.passed == Passed(packets, w.arrived)
  }

  /** Under early forwarding a packet that can be parsed has been handed on. */
  lemma StaysCaughtUp(packets: seq<seq<Byte>>, w: Reading, e: Event)
    requires CaughtUp(packets, w) && (e.Read? ==> !e.late)
    ensures var x := Happen(packets, w, e); CaughtUp(packets, x) && (e.Parse? ==> x.passed == w.passed)
  {
    hide Flat, WellFormed, WholeRuns, Complete, RunLength, Whole;
    match e
    case Read(n, late) => ReadOnTrack(packets, w, n, late);
    case Parse =>
      ParseOnTrack(packets, w);
      PointInBuffer(packets, w);
      RunFindsPacket(packets, w.parsed, w.arrived);
      if RunLength(w.input.buffer).Packet? {
        EarlyReading(packets, w.passed, w.arrived);
      }
  }

  lemma StartCaughtUp(packets: seq<seq<Byte>>)
    requires forall p :: p in packets ==> WellFormed(p)
    ensures CaughtUp(packets, Start())
  {
    StartOnTrack(packets);
    if packets != [] {
      Nonempty(packets[0]);
    }
  }

  /** Everything that arrives at once, under either setting. */
  lemma AllArrive(packets: seq<seq<Byte>>, late: bool)
    requires (forall p :: p in packets ==> WellFormed(p)) && |Flat(packets)| <= MAX_PROXY_BUFFER
    ensures var w := Happen(packets, Start(), Read(|Flat(packets)|, late));
            && OnTrack(packets, w) && w.parsed == 0 && w.passed == (if late then 0 else |packets|)
            && w.arrived == |Flat(packets)|
            && w.input.forwardpoint == (if late then 0 else |Flat(packets)|)
  {
    hide OnTrack, Flat, WellFormed, Complete, Happen;
    StartOnTrack(packets);
    var n := |Flat(packets)|;
    ReadOnTrack(packets, Start(), n, late);
    ReadAll(packets, late);
    if !late {
      AllPassed(packets);
    }
    PointIs(packets, Happen(packets, Start(), Read(n, late)));
    WholeFlat(packets);
    NothingBefore(packets);
  }

  lemma ReadAll(packets: seq<seq<Byte>>, late: bool)
    requires |Flat(packets)| <= MAX_PROXY_BUFFER
    ensures var w := Happen(packets, Start(), Read(|Flat(packets)|, late));
            && w.parsed == 0 && w.passed == (if late then 0 else Passed(packets, |Flat(packets)|))
            && w.arrived == |Flat(packets)|
  {
    hide Flat, AfterRead, Passed;
  }

  lemma AllPassed(packets: seq<seq<Byte>>)
    requires forall p :: p in packets ==> WellFormed(p)
    ensures Passed(packets, |Flat(packets)|) == |packets|
  {
    hide Flat, WellFormed, Complete;
    NothingBefore(packets);
    EarlyReading(packets, 0, |Flat(packets)|);
    var c := Passed(packets, |Flat(packets)|);
    if c < |packets| {
      OffsetsGrow(packets, c + 1);
    }
  }

  lemma PointIs(packets: seq<seq<Byte>>, w: Reading)
    requires OnTrack(packets, w)
    ensures w.parsed <= w.passed <= |packets|
    ensures w.input.forwardpoint == Offset(packets, w.passed) - Offset(packets, w.parsed)
  {
  }

  lemma NothingBefore(packets: seq<seq<Byte>>)
    ensures Offset(packets, 0) == 0
  {
  }

  lemma OffsetsGrow(packets: seq<seq<Byte>>, k: nat)
    requires k <= |packets|
    ensures Offset(packets, k) <= |Flat(packets)|
  {
    FlatBetween(packets, k, k);
  }

  lemma PointInBuffer(packets: seq<seq<Byte>>, w: Reading)
    requires OnTrack(packets, w)
    ensures w.input.forwardpoint <= |w.input.buffer| && w.parsed <= w.passed <= |packets|
  {
  }

  // ---------- Main result ----------

  /**
   * For every stream of well-formed packets and every interleaving of reads of any size, parses and
   * changes of the late-forwarding setting: what was handed on is, in order and exactly once, the
   * packets up to `passed`, in blocks of whole packets; every packet whose bytes were destroyed had
   * been handed on; and the forward point stays on a packet boundary within the buffer.
   */
  lemma ForwardedExactlyOnce(packets: seq<seq<Byte>>, events: seq<Event>)
    requires forall p :: p in packets ==> WellFormed(p)
    ensures var w := Run(packets, Start(), events);
            && w.parsed <= w.passed <= |packets|
            && Flat(w.input.forwarded) == Flat(packets[..w.passed])
            && WholeRuns(packets, w.input.forwarded)
            && w.input.forwardpoint <= |w.input.buffer|
            && w.input.forwardpoint == Offset(packets, w.passed) - Offset(packets, w.parsed)
  {
    hide Flat, WellFormed, WholeRuns;
    StartOnTrack(packets);
    RunOnTrack(packets, Start(), events);
  }

  // ---------- The implementation ----------

  lemma SliceOfPrefix(s: seq<Byte>, n: nat, a: nat, b: nat)
    requires a <= b <= n <= |s|
    ensures s[..n][a..b] == s[a..b]
  {
  }

  lemma EarlyStep(s: seq<Byte>)
    ensures var k := EarlyLength(s);
            if k == 0 then Whole(s) == 0 && Urgent(s) == []
            else
              && 2 <= k <= |s|
              && Whole(s) == k + Whole(s[k..])
              && Urgent(s) == (if IsData(s[1]) then [s[..k]] else []) + Urgent(s[k..])
  {
  }

  lemma NothingUrgent()
    ensures Urgent([]) == []
  {
  }

  /** The packets of proxy data are all within the bytes that are handed on. */
  lemma {:induction false} WholeUrgent(s: seq<Byte>)
    ensures Urgent(s[..Whole(s)]) == Urgent(s)
  {
    hide EarlyLength, IsData, Whole, Urgent;
    var k, t := EarlyLength(s), s[..Whole(s)];
    EarlyStep(s);
    if k > 0 {
      WholeUrgent(s[k..]);
      assert t[k..] == s[k..][..Whole(s[k..])] && t[..k] == s[..k];
      SameLengthEarly(s, Whole(s));
      EarlyStep(t);
    } else {
      NothingUrgent();
    }
  }

  lemma SameLengthEarly(s: seq<Byte>, n: nat)
    requires 0 < EarlyLength(s) <= n <= |s|
    ensures EarlyLength(s[..n]) == EarlyLength(s)
  {
    hide GetLong;
    var ofs := LengthOffset(s[1]);
    if ofs > 0 {
      assert s[..n][ofs..][..4] == s[ofs..][..4];
      LongPrefix(s[..n][ofs..], s[ofs..]);
    }
  }

  lemma PacketHasType(s: seq<Byte>)
    ensures RunLength(s).Packet? ==> |s| >= 2
  {
  }

  class StreamBuf {
    const buffer: array<Byte>
    var buffersize: nat
    var forwardpoint: nat
    ghost var forwarded: seq<seq<Byte>>

    ghost predicate Valid()
      reads this
    {
      buffer.Length == MAX_PROXY_BUFFER && buffersize <= MAX_PROXY_BUFFER
    }

    ghost function View(): Input
      requires Valid()
      reads this, buffer
    {
      Input(buffer[..buffersize], forwardpoint, forwarded)
    }

    constructor ()
      ensures Valid() && View() == Input([], 0, []) && fresh(buffer)
    {
      buffer := new Byte[MAX_PROXY_BUFFER];
      buffersize, forwardpoint, forwarded := 0, 0, [];
    }

    /** The length word of a packet. */
    method LengthAt(at: nat) returns (length: nat)
      requires at + 4 <= buffer.Length
      ensures forall s :: buffer[at..at + 4] <= s ==> length == GetLong(s)
    {
      length := (buffer[at] as nat) + buffer[at + 1] as nat * 0x100 + buffer[at + 2] as nat * 0x1_0000
                + buffer[at + 3] as nat * 0x100_0000;
      forall s | buffer[at..at + 4] <= s
        ensures length == GetLong(s)
      {
        assert s[0] == buffer[at..at + 4][0] && s[1] == buffer[at..at + 4][1];
        assert s[2] == buffer[at..at + 4][2] && s[3] == buffer[at..at + 4][3];
      }
    }

    /** The size of the packet at the front of `remaining` bytes as SV_EarlyParse takes it, or 0. */
    method EarlyPacket(at: nat, remaining: nat) returns (length: nat)
      requires at + remaining <= buffer.Length
      ensures length == EarlyLength(buffer[at..at + remaining])
    {
      hide GetLong;
      ghost var rest := buffer[at..at + remaining];
      if remaining < 2 {
        return 0;
      }
      var lengthofs;
      match buffer[at + 1] % 8 {
        case 2 => lengthofs := 0;
        case 3 => lengthofs := 6;
        case _ => lengthofs := 2;
      }
      assert rest[1] == buffer[at + 1];
      if lengthofs > 0 {
        if lengthofs + 4 > remaining {
          return 0;
        }
        length := LengthAt(at + lengthofs);
        assert buffer[at + lengthofs..at + lengthofs + 4] <= rest[lengthofs..];
        length := length + lengthofs + 4;
      } else {
        length := 10;
      }
      if remaining < length {
        return 0;
      }
    }

    /** SV_EarlyParse: how many bytes of whole packets there are, and the packets it gives to ParseMessage. */
    method EarlyParse(start: nat, size: int, demo: bool) returns (available: nat, early: seq<seq<Byte>>)
      requires start + size <= buffer.Length
      ensures available == if size < 0 then 0 else Whole(buffer[start..start + size])
      ensures early == if size < 0 || demo then [] else Urgent(buffer[start..start + size])
    {
      hide EarlyLength, IsData, Whole, Urgent;
      available, early := 0, [];
      if size < 0 {
        return;
      }
      assert buffer[start..start + size] == buffer[start + 0..start + size];
      ghost var all := buffer[start..start + size];
      while true
        invariant available <= size
        invariant Whole(all) == available + Whole(buffer[start + available..start + size])
        invariant demo ==> early == []
        invariant !demo ==> Urgent(all) == early + Urgent(buffer[start + available..start + size])
        decreases size - available
      {
        ghost var rest := buffer[start + available..start + size];
        var length := EarlyPacket(start + available, size - available);
        EarlyStep(rest);
        if length == 0 {
          return;
        }
        assert rest[length..] == buffer[start + (available + length)..start + size];
        assert rest[..length] == buffer[start + available..start + available + length];
        assert rest[1] == buffer[start + available + 1];
        if IsData(buffer[start + available + 1]) && !demo {
          early := early + [buffer[start + available..start + available + length]];
        }
        available := available + length;
      }
    }

    /** What the socket or file returned is stored behind the bytes already there. */
    method Receive(chunk: seq<Byte>)
      requires Valid() && buffersize + |chunk| <= MAX_PROXY_BUFFER
      modifies this`buffersize, buffer
      ensures Valid() && View() == old(View()).(buffer := old(View()).buffer + chunk)
    {
      for i := 0 to |chunk|
        invariant buffersize == old(buffersize)
        invariant buffer[..buffersize] == old(buffer[..buffersize])
        invariant buffer[buffersize..buffersize + i] == chunk[..i]
      {
        buffer[buffersize + i] := chunk[i];
      }
      buffersize := buffersize + |chunk|;
      assert buffer[..buffersize] == old(buffer[..buffersize]) + chunk;
    }

    /**
     * Net_ReadStream with the bytes that arrived; `block` is what it hands to SV_ForwardStream, and `early`
     * are the packets that are given to ParseMessage at once.
     */
    method ReadStream(chunk: seq<Byte>, late: bool, demo: bool) returns (block: seq<Byte>, early: seq<seq<Byte>>)
      requires Valid() && buffersize + |chunk| <= MAX_PROXY_BUFFER
      modifies this, buffer
      ensures Valid() && View() == AfterRead(old(View()), chunk, late)
      ensures forwarded == if block == [] then old(forwarded) else old(forwarded) + [block]
      ensures early == if demo then [] else Urgent(block)
    {
      hide Whole, Urgent;
      Receive(chunk);
      block, early := [], [];
      NothingUrgent();
      if !late {
        var forwardable;
        forwardable, early := EarlyParse(forwardpoint, buffersize - forwardpoint, demo);
        if forwardpoint <= buffersize {
          assert buffer[forwardpoint..forwardpoint + (buffersize - forwardpoint)] == View().buffer[forwardpoint..];
          WholeUrgent(View().buffer[forwardpoint..]);
          assert View().buffer[forwardpoint..][..forwardable]
                 == View().buffer[forwardpoint..forwardpoint + forwardable];
        }
        if forwardable > 0 {
          block := buffer[forwardpoint..forwardpoint + forwardable];
          SliceOfPrefix(buffer[..], buffersize, forwardpoint, forwardpoint + forwardable);
          assert buffer[..][..buffersize] == View().buffer;
          forwarded := forwarded + [block];
          forwardpoint := forwardpoint + forwardable;
        }
      }
    }

    /** Moves the rest of the buffer down over the first `length` bytes. */
    method Discard(length: nat)
      requires buffer.Length == MAX_PROXY_BUFFER && length <= buffersize <= MAX_PROXY_BUFFER
      modifies this`buffersize, buffer
      ensures buffersize == old(buffersize) - length
      ensures buffer[..buffersize] == old(buffer[..buffersize])[length..]
    {
      var rest := buffersize - length;
      for i := 0 to rest
        invariant buffersize == old(buffersize)
        invariant buffer[..i] == old(buffer[..buffersize])[length..length + i]
        invariant forall k :: length + i <= k < buffersize ==> buffer[k] == old(buffer[k])
      {
        buffer[i] := buffer[length + i];
      }
      buffersize := rest;
    }

    /** The packet due as the loop of QTV_Run takes it. */
    method PacketDue() returns (found: Parsed)
      requires Valid()
      ensures found == RunLength(buffer[..buffersize])
    {
      hide GetLong;
      if buffersize < 2 {
        return Incomplete;
      }
      var lengthofs;
      match buffer[1] % 8 {
        case 2 => return if buffersize < 10 then Incomplete else Packet(10);
        case 3 => lengthofs := 6;
        case _ => lengthofs := 2;
      }
      if buffersize < lengthofs + 4 {
        return Incomplete;
      }
      var length := LengthAt(lengthofs);
      assert buffer[lengthofs..lengthofs + 4] <= buffer[..buffersize][lengthofs..];
      if length > MAX_MSGLEN {
        return Corrupt;
      }
      if length + lengthofs + 4 > buffersize {
        return Incomplete;
      }
      return Packet(lengthofs + 4 + length);
    }

    /**
     * One round of the loop of QTV_Run: the packet due is given to ParseMessage when `parse` says so, what
     * was not forwarded yet is forwarded, and the packet is destroyed.
     */
    method RunPacket(demo: bool) returns (found: Parsed, block: seq<Byte>, parse: bool)
      requires Valid()
      modifies this, buffer
      ensures Valid() && found == RunLength(old(View()).buffer) && View() == AfterRun(old(View()))
      ensures forwarded == if block == [] then old(forwarded) else old(forwarded) + [block]
      ensures parse <==> found.Packet? && ParsedWhenDue(old(View()).buffer[1], demo)
    {
      hide RunLength;
      block, parse := [], false;
      found := PacketDue();
      match found {
        case Incomplete =>
        case Corrupt => buffersize, forwardpoint := 0, 0;
        case Packet(length) =>
          PacketHasType(buffer[..buffersize]);
          match buffer[1] % 8 {
            case 3 => parse := true;
            case 4 => parse := true;
            case 5 => parse := true;
            case 6 => parse := buffer[1] / 8 == 0 || demo;
            case 1 => parse := true;
            case _ =>
          }
          if forwardpoint < length {
            block := buffer[..length];
            assert block == buffer[..buffersize][..length];
            forwarded := forwarded + [block];
            forwardpoint := forwardpoint + length;
          }
          Discard(length);
          forwardpoint := forwardpoint - length;
      }
    }
  }
}
