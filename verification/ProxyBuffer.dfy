/**
 * The output side of a downstream proxy connection (fteqtv/forward.c): a cyclic buffer of 2^17 bytes
 * that is flushed by partial socket writes.
 *
 * As a value a connection is a first-in first-out queue.  The `script` is what the socket will answer
 * to the coming writes; an exhausted script blocks for ever.
 */
module ProxyBuffer {
  import opened Msg

  const MAX_PROXY_BUFFER: nat := 0x2_0000

  datatype SockResult = Accepted(n: nat) | Eof | WouldBlock | Failed

  datatype Proxy = Proxy(
    pos: nat,               // bufferpos, which decides how much one write can offer
    pending: seq<Byte>,     // queued and not yet sent
    flushing: bool,
    drop: bool,
    script: seq<SockResult>,
    accepted: seq<Byte>,    // history: every byte ever queued
    sent: seq<Byte>)        // history: every byte the socket has taken

  // ---------- Operations on connections as values ----------

  /** The position in the cyclic buffer. */
  function Wrap(i: nat): (w: nat)
    ensures w < MAX_PROXY_BUFFER
  {
    i % 0x2_0000
  }

  function Min(a: nat, b: nat): nat {
    if a < b then a else b
  }

  /** One write offers the queue up to the end of the buffer. */
  function Offered(p: Proxy): (n: nat)
    ensures n <= |p.pending|
  {
    Min(|p.pending|, MAX_PROXY_BUFFER - Wrap(p.pos))
  }

  function Normalised(p: Proxy): Proxy {
    if p.pos >= MAX_PROXY_BUFFER then p.(pos := p.pos - MAX_PROXY_BUFFER) else p
  }

  function NextResult(p: Proxy): SockResult {
    if p.script == [] then WouldBlock else p.script[0]
  }

  function Popped(p: Proxy): Proxy {
    p.(script := if p.script == [] then [] else p.script[1..])
  }

  function Taken(p: Proxy, n: nat): Proxy
    requires n <= |p.pending|
  {
    p.(pos := p.pos + n, pending := p.pending[n..], sent := p.sent + p.pending[..n])
  }

  /** One write to the socket, which takes some of what is offered, or fails. */
  function AfterWrite(p: Proxy): Proxy {
    var r := Popped(p);
    match NextResult(p)
    case Accepted(n) => if n == 0 then r.(drop := true, flushing := false) else Taken(r, Min(n, Offered(r)))
    case WouldBlock => r
    case Eof | Failed => r.(drop := true, flushing := false)
  }

  /** Net_TryFlushProxyBuffer. */
  function AfterFlush(p: Proxy): Proxy {
    var q := Normalised(p);
    if q.pending == [] then q else AfterWrite(q)
  }

  function Queued(p: Proxy, data: seq<Byte>): Proxy {
    p.(pending := p.pending + data, accepted := p.accepted + data)
  }

  predicate Fits(p: Proxy, n: nat) {
    |p.pending| + n <= MAX_PROXY_BUFFER
  }

  /** The connection after making room for `n` bytes was tried. */
  function WithRoom(p: Proxy, n: nat): Proxy {
    if Fits(p, n) then p else AfterFlush(p)
  }

  /** Net_ProxySend on a raw connection. */
  function AfterSend(p: Proxy, data: seq<Byte>): Proxy {
    if data == [] then p
    else
      var q := WithRoom(p, |data|);
      if Fits(q, |data|) then Queued(q, data) else q.(flushing := true)
  }

  /** The header of a message: no delay, its type, its length and, for some, a player mask. */
  function MessageHeader(demType: Byte, length: nat, mask: nat): seq<Byte> {
    [0, demType] + Long(length) + (if demType == 3 then Long(mask) else [])
  }

  /** Prox_SendMessage on a raw connection. */
  function AfterMessage(p: Proxy, header: seq<Byte>, body: seq<Byte>): Proxy {
    var q := WithRoom(p, |body| + |header|);
    if Fits(q, |body| + |header|) then AfterSend(AfterSend(q, header), body) else q.(flushing := true)
  }

  // ---------- What every operation keeps ----------

  ghost predicate Sound(p: Proxy) {
    p.pos <= MAX_PROXY_BUFFER && |p.pending| <= MAX_PROXY_BUFFER && p.accepted == p.sent + p.pending
  }

  /** Neither counter of a sound connection can come near the limits of its 32 bits. */
  lemma FlushSound(p: Proxy)
    requires Sound(p)
    ensures var q := AfterFlush(p);
            && Sound(q) && q.accepted == p.accepted && p.sent <= q.sent && q.pos + |q.pending| <= 2 * MAX_PROXY_BUFFER
  {
    hide Wrap;
    var q := Popped(Normalised(p));
    if p.pending != [] && NextResult(Normalised(p)).Accepted? {
      var k := Min(NextResult(Normalised(p)).n, Offered(q));
      assert q.sent + q.pending[..k] + q.pending[k..] == q.sent + q.pending;
      assert q.pos < MAX_PROXY_BUFFER ==> Wrap(q.pos) == q.pos by {
        if q.pos < MAX_PROXY_BUFFER {
          WrapSmall(q.pos);
        }
      }
    }
  }

  lemma WrapSmall(i: nat)
    requires i < MAX_PROXY_BUFFER
    ensures Wrap(i) == i
  {
  }

  /** A raw send queues all of the data or none of it. */
  lemma SendAllOrNothing(p: Proxy, data: seq<Byte>)
    requires Sound(p)
    ensures var q := AfterSend(p, data);
            && Sound(q) && p.sent <= q.sent
            && q.accepted == p.accepted + (if data == [] || Fits(WithRoom(p, |data|), |data|) then data else [])
            && (q.accepted != p.accepted + data ==> q.flushing)
  {
    FlushSound(p);
    var r := WithRoom(p, |data|);
    assert r.accepted + data == r.sent + (r.pending + data);
    assert p.accepted + [] == p.accepted;
  }

  /** A message is queued with its header and its body or not at all. */
  lemma MessageAllOrNothing(p: Proxy, header: seq<Byte>, body: seq<Byte>)
    requires Sound(p)
    ensures var q := AfterMessage(p, header, body);
            && Sound(q) && p.sent <= q.sent
            && q.accepted == p.accepted + (if Fits(WithRoom(p, |body| + |header|), |body| + |header|)
                                           then header + body else [])
            && (q.accepted != p.accepted + (header + body) ==> q.flushing)
  {
    hide AfterFlush;
    FlushSound(p);
    var r := WithRoom(p, |body| + |header|);
    assert p.accepted + [] == p.accepted;
    if Fits(r, |body| + |header|) {
      SendAllOrNothing(r, header);
      SendAllOrNothing(AfterSend(r, header), body);
      assert r.accepted + header + body == r.accepted + (header + body);
    }
  }

  /** What one flush does with the answer of the socket: the first bytes of the queue leave, or the connection ends. */
  lemma FlushTakes(p: Proxy)
    requires Sound(p) && p.pending != [] && p.script != []
    ensures var q := AfterFlush(p);
            && q.script == p.script[1..] && q.accepted == p.accepted
            && match p.script[0]
               case WouldBlock => q.sent == p.sent && q.drop == p.drop && q.flushing == p.flushing
               case Accepted(n) =>
                 if n == 0 then q.drop && q.sent == p.sent
                 else
                   && q.drop == p.drop && q.flushing == p.flushing
                   && exists k :: 0 < k <= n && k <= |p.pending| && q.sent == p.sent + p.pending[..k]
                                  && (k == n || k == |p.pending| || q.pos == 0x2_0000)
               case _ => q.drop && q.sent == p.sent
  {
    hide Wrap;
    if p.script[0].Accepted? && p.script[0].n > 0 {
      var r := Normalised(p);
      WrapSmall(r.pos);
      var k := Min(p.script[0].n, Offered(r));
      assert 0 < k && AfterFlush(p).sent == p.sent + p.pending[..k];
    }
  }

  /** A socket that takes something at every flush empties the queue in as many flushes as it has bytes. */
  lemma {:induction false} FlushesDrain(p: Proxy, events: seq<ProxyEvent>)
    requires Sound(p) && |p.pending| <= |events| <= |p.script|
    requires forall i :: 0 <= i < |events| ==> events[i] == Flush && p.script[i].Accepted? && p.script[i].n > 0
    ensures var q := AfterEvents(p, events);
            q.pending == [] && q.sent == q.accepted == p.accepted && q.drop == p.drop && q.flushing == p.flushing
    decreases |events|
  {
    hide AfterFlush;
    if events != [] {
      var q := AfterFlush(p);
      FlushSound(p);
      if p.pending == [] {
        EmptyFlush(p);
      } else {
        FlushTakes(p);
        assert |q.sent| > |p.sent| && |q.accepted| == |q.sent| + |q.pending|;
      }
      assert q.script == p.script || q.script == p.script[1..];
      FlushesDrain(q, events[1..]);
    } else {
      assert p.sent + [] == p.sent;
    }
  }

  lemma EmptyFlush(p: Proxy)
    requires p.pending == []
    ensures var q := AfterFlush(p);
            q == p.(pos := q.pos)
  {
  }

  /** What fits 2^17 bytes together with the queue is queued, and never what does not fit after a flush. */
  lemma QueuedIfRoom(p: Proxy, data: seq<Byte>)
    requires data != []
    ensures |p.pending| + |data| <= 0x2_0000 ==>
              AfterSend(p, data) == p.(pending := p.pending + data, accepted := p.accepted + data)
    ensures |p.pending| + |data| > 0x2_0000 ==>
              var r := AfterFlush(p);
              AfterSend(p, data) == if |r.pending| + |data| <= 0x2_0000
                                    then r.(pending := r.pending + data, accepted := r.accepted + data)
                                    else r.(flushing := true)
  {
    hide AfterFlush;
  }

  // ---------- Runs ----------

  datatype ProxyEvent = Flush | Send(data: seq<Byte>) | Message(header: seq<Byte>, body: seq<Byte>)

  function AfterEvent(p: Proxy, e: ProxyEvent): Proxy {
    match e
    case Flush => AfterFlush(p)
    case Send(data) => AfterSend(p, data)
    case Message(header, body) => AfterMessage(p, header, body)
  }

  function AfterEvents(p: Proxy, events: seq<ProxyEvent>): Proxy
    decreases |events|
  {
    if events == [] then p else AfterEvents(AfterEvent(p, events[0]), events[1..])
  }

  function NewProxy(script: seq<SockResult>): Proxy {
    Proxy(0, [], false, false, script, [], [])
  }

  lemma {:induction false} EventsSound(p: Proxy, events: seq<ProxyEvent>)
    requires Sound(p)
    ensures var q := AfterEvents(p, events); Sound(q) && p.sent <= q.sent
    decreases |events|
  {
    hide AfterFlush, AfterSend, AfterMessage;
    if events != [] {
      match events[0] {
        case Flush => FlushSound(p);
        case Send(data) => SendAllOrNothing(p, data);
        case Message(header, body) => MessageAllOrNothing(p, header, body);
      }
      EventsSound(AfterEvent(p, events[0]), events[1..]);
    }
  }

  /**
   * Whatever the socket answers and in whatever pieces it takes the data, what it has taken is always
   * a prefix of what was queued, and the rest is exactly what is pending.
   */
  lemma ProxyRefinesQueue(script: seq<SockResult>, events: seq<ProxyEvent>)
    ensures var p := AfterEvents(NewProxy(script), events);
            && p.accepted == p.sent + p.pending
            && p.pos <= MAX_PROXY_BUFFER && p.pos + |p.pending| <= 2 * MAX_PROXY_BUFFER
  {
    EventsSound(NewProxy(script), events);
  }

  // ---------- The implementation ----------

  lemma WrapDistinct(a: nat, b: nat)
    requires a < b < a + MAX_PROXY_BUFFER
    ensures Wrap(a) != Wrap(b)
  {
  }

  lemma WrapPeriod(i: nat)
    ensures Wrap(i + MAX_PROXY_BUFFER) == Wrap(i)
  {
  }

  lemma PoppedOnlyScript(p: Proxy)
    ensures Popped(p) == p.(script := Popped(p).script)
  {
  }

  class OProxy {
    const buffer: array<Byte>
    var buffersize: nat
    var bufferpos: nat
    var flushing: bool
    var drop: bool
    var script: seq<SockResult>
    ghost var accepted: seq<Byte>
    ghost var sent: seq<Byte>

    ghost predicate Valid()
      reads this, buffer
    {
      && buffer.Length == MAX_PROXY_BUFFER
      && bufferpos <= MAX_PROXY_BUFFER
      && bufferpos <= buffersize <= bufferpos + MAX_PROXY_BUFFER
      && accepted == sent + Pending()
    }

    /** The queue, read off the cyclic buffer. */
    ghost function Pending(): (s: seq<Byte>)
      requires buffer.Length == MAX_PROXY_BUFFER && bufferpos <= buffersize
      reads this`bufferpos, this`buffersize, buffer
      ensures |s| == buffersize - bufferpos
      ensures forall i :: 0 <= i < |s| ==> s[i] == buffer[Wrap(bufferpos + i)]
    {
      var start := bufferpos;
      seq(buffersize - start, i requires 0 <= i && buffer.Length == MAX_PROXY_BUFFER reads buffer =>
        buffer[Wrap(start + i)])
    }

    ghost function View(): Proxy
      requires Valid()
      reads this, buffer
    {
      Proxy(bufferpos, Pending(), flushing, drop, script, accepted, sent)
    }

    constructor (script: seq<SockResult>)
      ensures Valid() && View() == NewProxy(script) && fresh(buffer)
    {
      buffer := new Byte[MAX_PROXY_BUFFER];
      buffersize, bufferpos, flushing, drop := 0, 0, false, false;
      this.script, accepted, sent := script, [], [];
    }

    /** Keeps the counters from growing without bound. */
    method Normalise()
      requires Valid()
      modifies this`bufferpos, this`buffersize
      ensures Valid() && View() == Normalised(old(View())) && bufferpos < MAX_PROXY_BUFFER
    {
      hide Wrap;
      ghost var was := Pending();
      while bufferpos >= MAX_PROXY_BUFFER
        invariant bufferpos <= buffersize <= bufferpos + MAX_PROXY_BUFFER
        invariant Pending() == was
        invariant bufferpos == old(bufferpos) || bufferpos == old(bufferpos) - MAX_PROXY_BUFFER
        invariant bufferpos < old(bufferpos) ==> old(bufferpos) >= MAX_PROXY_BUFFER
        decreases bufferpos
      {
        bufferpos := bufferpos - MAX_PROXY_BUFFER;
        buffersize := buffersize - MAX_PROXY_BUFFER;
        forall i | 0 <= i < |was|
          ensures buffer[Wrap(bufferpos + i)] == was[i]
        {
          WrapPeriod(bufferpos + i);
        }
      }
    }

    /** The answer of the socket to the next write. */
    method NextAnswer() returns (r: SockResult)
      requires Valid()
      modifies this`script
      ensures Valid() && r == NextResult(old(View())) && View() == Popped(old(View()))
    {
      hide Wrap;
      if script == [] {
        return WouldBlock;
      }
      r := script[0];
      script := script[1..];
    }

    method Write(length: nat)
      requires Valid() && bufferpos < MAX_PROXY_BUFFER && length == Offered(View())
      modifies this
      ensures Valid() && View() == AfterWrite(old(View()))
    {
      hide Wrap, Popped, NextResult;
      WrapSmall(bufferpos);
      PoppedOnlyScript(View());
      var answer := NextAnswer();
      match answer {
        case Eof | Failed => drop, flushing := true, false;
        case WouldBlock =>
        case Accepted(n) =>
          if n == 0 {
            drop, flushing := true, false;
          } else {
            TakeBytes(if n < length then n else length);
          }
      }
    }

    method TryFlush()
      requires Valid()
      modifies this
      ensures Valid() && View() == AfterFlush(old(View()))
    {
      hide Wrap, AfterWrite;
      Normalise();
      var bufpos := Wrap(bufferpos);
      var length := buffersize - bufferpos;
      if length > MAX_PROXY_BUFFER - bufpos {
        length := MAX_PROXY_BUFFER - bufpos;
      }
      WrapSmall(bufferpos);
      if length == 0 {
        return;
      }
      Write(length);
    }

    method TakeBytes(n: nat)
      requires Valid() && n <= buffersize - bufferpos && bufferpos + n <= MAX_PROXY_BUFFER
      modifies this`bufferpos, this`sent
      ensures Valid() && View() == Taken(old(View()), n)
    {
      hide Wrap;
      ghost var was := Pending();
      sent := sent + was[..n];
      bufferpos := bufferpos + n;
      assert Pending() == was[n..] by {
        forall i | 0 <= i < |was| - n
          ensures Pending()[i] == was[n..][i]
        {
          assert bufferpos + i == old(bufferpos) + (n + i);
        }
      }
      assert was == was[..n] + was[n..];
    }

    method Append(data: seq<Byte>)
      requires Valid() && buffersize - bufferpos + |data| <= MAX_PROXY_BUFFER
      modifies this`buffersize, this`accepted, buffer
      ensures Valid() && View() == Queued(old(View()), data)
    {
      hide Wrap;
      ghost var was := Pending();
      var start := buffersize;
      buffersize := buffersize + |data|;
      for i := 0 to |data|
        invariant bufferpos == old(bufferpos) && buffersize == start + |data|
        invariant forall k :: 0 <= k < |was| ==> buffer[Wrap(bufferpos + k)] == was[k]
        invariant forall k :: 0 <= k < i ==> buffer[Wrap(start + k)] == data[k]
        invariant accepted == old(accepted) && sent == old(sent)
      {
        buffer[Wrap(start + i)] := data[i];
        forall k | 0 <= k < |was|
          ensures buffer[Wrap(bufferpos + k)] == was[k]
        {
          WrapDistinct(bufferpos + k, start + i);
        }
        forall k | 0 <= k < i
          ensures buffer[Wrap(start + k)] == data[k]
        {
          WrapDistinct(start + k, start + i);
        }
      }
      accepted := accepted + data;
      forall k | 0 <= k < |was + data|
        ensures buffer[Wrap(bufferpos + k)] == (was + data)[k]
      {
        assert k >= |was| ==> bufferpos + k == start + (k - |was|);
      }
      assert Pending() == was + data;
    }

    /** Net_ProxySend without websocket framing. */
    method ProxySend(data: seq<Byte>)
      requires Valid()
      modifies this, buffer
      ensures Valid() && View() == AfterSend(old(View()), data)
    {
      if |data| == 0 {
        return;
      }
      if buffersize - bufferpos + |data| > MAX_PROXY_BUFFER {
        TryFlush();
        if buffersize - bufferpos + |data| > MAX_PROXY_BUFFER {
          flushing := true;
          return;
        }
      }
      Append(data);
    }

    /** Queues a header with its body, or neither. */
    method SendBlock(header: seq<Byte>, body: seq<Byte>)
      requires Valid()
      modifies this, buffer
      ensures Valid() && View() == AfterMessage(old(View()), header, body)
    {
      hide AfterFlush, AfterSend;
      if buffersize - bufferpos + |body| + |header| > MAX_PROXY_BUFFER {
        TryFlush();
        if buffersize - bufferpos + |body| + |header| > MAX_PROXY_BUFFER {
          flushing := true;
          return;
        }
      }
      ProxySend(header);
      ProxySend(body);
    }

    /** Prox_SendMessage without websocket framing. */
    method SendMessage(body: seq<Byte>, demType: Byte, mask: nat)
      requires Valid()
      modifies this, buffer
      ensures Valid() && View() == AfterMessage(old(View()), MessageHeader(demType, |body|, mask), body)
    {
      hide AfterMessage, MessageHeader;
      SendBlock(MessageHeader(demType, |body|, mask), body);
    }
  }
}
