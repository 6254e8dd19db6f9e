/**
 * The frame emitter and parser over message buffers and growable frame arrays:
 * SV_EmitPacketEntities, Prox_SendInitialEnts, ExpandFrame and ParsePacketEntities.
 */
module FrameCodec {
  import opened Msg
  import opened Delta
  import opened DeltaCodec
  import opened PacketEntities
  import opened CutFrame

  // ---------- Whole frames ----------

  /**
   * A receiver that holds the quantised reference frame and baselines ends up with exactly the
   * quantised new frame: the error of the wire format never accumulates from frame to frame.
   */
  lemma FrameRoundTrip(fmt: Format, base: Baselines, delta: int, from: Frame, to: Frame, rest: seq<Byte>)
    requires ValidFrame(from) && ValidFrame(to) && |base| == MAX_ENTITIES
    requires delta == -1 ==> from == []
    ensures var bytes := EmitFrame(fmt, base, delta, from, to);
            && FrameKind(delta) <= bytes
            && ParseEnts(fmt, QuantiseBaselines(fmt, base), QuantiseFrame(fmt, from),
                         bytes[|FrameKind(delta)|..] + rest)
               == (QuantiseFrame(fmt, to), rest)
  {
    hide Emit, ParseEnts, QuantiseFrame, QuantiseBaselines, Short, FrameKind, ReadHeader;
    var records := Emit(fmt, base, from, to);
    TerminatorEnds(rest);
    RecordsRoundTrip(fmt, base, from, to, Short(0) + rest);
    DropKind(FrameKind(delta), records + Short(0));
    assert records + Short(0) + rest == records + (Short(0) + rest);
  }

  lemma RecordsRoundTrip(fmt: Format, base: Baselines, from: Frame, to: Frame, end: seq<Byte>)
    requires ValidFrame(from) && ValidFrame(to) && |base| == MAX_ENTITIES && ReadHeader(end).num == 0
    ensures ParseEnts(fmt, QuantiseBaselines(fmt, base), QuantiseFrame(fmt, from), Emit(fmt, base, from, to) + end)
            == (QuantiseFrame(fmt, to), ReadHeader(end).rest)
  {
    hide *;
    assert [] + from == from && [] + to == to;
    MergeRoundTrip(fmt, base, [], from, to, end);
  }

  /**
   * A message cuts what it has no room for, and its end reads as zeros: the frame survives if every byte that
   * is cut is a zero. For frames and baselines as they come off the wire it survives only then, unless the cut
   * reaches the slot of the reference.
   */
  lemma FrameInRoom(fmt: Format, base: Baselines, delta: int, from: Frame, to: Frame, room: nat)
    requires ValidFrame(from) && ValidFrame(to) && |base| == MAX_ENTITIES
    requires delta == -1 ==> from == []
    ensures var bytes, kind := EmitFrame(fmt, base, delta, from, to), |FrameKind(delta)|;
            var got := ParseEnts(fmt, QuantiseBaselines(fmt, base), QuantiseFrame(fmt, from),
                                 Skip(Clip(bytes, room), kind)).0;
            && (ZerosFrom(bytes, room) ==> got == QuantiseFrame(fmt, to))
            && (AsReceived(fmt, base, from, to) && kind <= room ==>
                  (got == QuantiseFrame(fmt, to) <==> ZerosFrom(bytes, room)))
  {
    hide Emit, ParseEnts, QuantiseFrame, QuantiseBaselines, FrameKind, ReadHeader, ZerosFrom, Alike, Skip, Short,
         AsReceived, ValidFrame;
    var kind, records := FrameKind(delta), Emit(fmt, base, from, to);
    var bytes := EmitFrame(fmt, base, delta, from, to);
    var q, prev := QuantiseBaselines(fmt, base), QuantiseFrame(fmt, from);
    SkipKind(kind, records + Short(0), room);
    if ZerosFrom(bytes, room) {
      FrameRoundTrip(fmt, base, delta, from, to, []);
      assert bytes[|kind|..] + [] == bytes[|kind|..];
      ClippedAlike(bytes, room);
      AlikeSkip(Clip(bytes, room), bytes, |kind|);
      AlikeEnts(fmt, q, prev, Skip(Clip(bytes, room), |kind|), Skip(bytes, |kind|));
    } else if AsReceived(fmt, base, from, to) && |kind| <= room {
      ReceivedFrames(fmt, base, from, to);
      RecordsCut(kind, records, room);
      assert [] + from == from && [] + to == to;
      CutBreaks(fmt, base, [], from, to, Skip(Clip(bytes, room), |kind|));
    }
  }

  lemma ClippedAlike(bytes: seq<Byte>, room: nat)
    requires ZerosFrom(bytes, room)
    ensures Alike(Clip(bytes, room), bytes)
  {
    PrefixAlike(Clip(bytes, room), bytes);
  }

  lemma SkipKind(kind: seq<Byte>, body: seq<Byte>, room: nat)
    ensures Skip(kind + body, |kind|) == body == (kind + body)[|kind|..]
    ensures |kind| <= room ==> Skip(Clip(kind + body, room), |kind|) == Clip(body, room - |kind|)
  {
    SkipFront(kind, body);
    if |kind| <= room {
      assert Clip(kind + body, room) == kind + Clip(body, room - |kind|);
      SkipFront(kind, Clip(body, room - |kind|));
    }
  }

  lemma {:induction false} SkipFront(a: seq<Byte>, b: seq<Byte>)
    ensures Skip(a + b, |a|) == b
  {
    if a == [] {
      assert a + b == b;
    } else {
      assert Rest(a + b) == a[1..] + b;
      SkipFront(a[1..], b);
    }
  }

  /** Where a byte that is not zero is cut, it is a byte of a record. */
  lemma RecordsCut(kind: seq<Byte>, records: seq<Byte>, room: nat)
    requires |kind| <= room && !ZerosFrom(kind + (records + Short(0)), room)
    ensures var s := Skip(Clip(kind + (records + Short(0)), room), |kind|); s <= records && !ZerosFrom(records, |s|)
  {
    var body := records + Short(0);
    SkipKind(kind, body, room);
    var i :| room <= i < |kind + body| && (kind + body)[i] != 0;
    assert body[i - |kind|] != 0;
  }

  lemma ReceivedFrames(fmt: Format, base: Baselines, from: Frame, to: Frame)
    requires AsReceived(fmt, base, from, to)
    ensures QuantiseBaselines(fmt, base) == base && QuantiseFrame(fmt, from) == from && QuantiseFrame(fmt, to) == to
  {
    hide Quantise, LeastBits;
  }

  lemma DropKind(kind: seq<Byte>, body: seq<Byte>)
    ensures (kind + body)[|kind|..] == body && kind <= kind + body
  {
  }

  /** Prox_SendInitialEnts: every entity of the frame against its baseline. */
  function InitialRecords(fmt: Format, base: Baselines, f: Frame): seq<Byte> {
    if f == [] then []
    else DeltaBytes(fmt, f[0].num, Baseline(base, f[0].num), f[0].state, true) + InitialRecords(fmt, base, f[1..])
  }

  /** A snapshot of the frame is the frame sent without a reference. */
  lemma {:induction false} InitialIsFullFrame(fmt: Format, base: Baselines, f: Frame)
    requires ValidFrame(f)
    ensures InitialRecords(fmt, base, f) == Emit(fmt, base, [], f)
  {
    hide DeltaBytes;
    if f != [] {
      ValidTail(f, 1);
      InitialIsFullFrame(fmt, base, f[1..]);
    }
  }

  /** The snapshot parsed onto an empty frame reproduces the current frame. */
  lemma InitialRoundTrip(fmt: Format, base: Baselines, f: Frame, rest: seq<Byte>)
    requires ValidFrame(f) && |base| == MAX_ENTITIES
    ensures ParseEnts(fmt, QuantiseBaselines(fmt, base), [], InitialRecords(fmt, base, f) + (Short(0) + rest))
            == (QuantiseFrame(fmt, f), rest)
  {
    hide Emit, ParseEnts, QuantiseBaselines, Short;
    InitialIsFullFrame(fmt, base, f);
    assert QuantiseFrame(fmt, []) == [] && [] + f == f;
    var none: Frame := [];
    assert none + none == none;
    TerminatorEnds(rest);
    MergeRoundTrip(fmt, base, [], [], f, Short(0) + rest);
  }

  // ---------- Emitting ----------

  method WriteRemove(msg: NetMsg, num: nat)
    requires msg.Valid()
    modifies msg`cursize, msg.data
    ensures msg.Valid() && msg.Contents() == Clip(old(msg.Contents()) + RemoveBytes(num), msg.maxsize)
  {
    msg.WriteShort(num + 0x4000);
  }

  lemma EmitNothing(fmt: Format, base: Baselines)
    ensures Emit(fmt, base, [], []) == []
  {
  }

  method EmitRecords(msg: NetMsg, fmt: Format, base: Baselines, from: Frame, to: Frame)
    requires msg.Valid()
    requires ValidFrame(from) && ValidFrame(to)
    modifies msg`cursize, msg.data
    ensures msg.Valid() && msg.Contents() == Clip(old(msg.Contents()) + Emit(fmt, base, from, to), msg.maxsize)
  {
    hide DeltaBytes, RemoveBytes, Emit, Clip, Baseline;
    var newindex, oldindex := 0, 0;
    ghost var was := msg.Contents();
    ghost var done: seq<Byte> := [];
    assert was + [] == was == Clip(was, msg.maxsize) && from[0..] == from && to[0..] == to;
    assert Emit(fmt, base, [], []) == [] by { EmitNothing(fmt, base); }
    while newindex < |to| || oldindex < |from|
      invariant newindex <= |to| && oldindex <= |from| && msg.Valid()
      invariant msg.Contents() == Clip(was + done, msg.maxsize)
      invariant done + Emit(fmt, base, from[oldindex..], to[newindex..]) == Emit(fmt, base, from, to)
      decreases |to| - newindex + |from| - oldindex
    {
      var newnum := if newindex >= |to| then 9999 else to[newindex].num;
      var oldnum := if oldindex >= |from| then 9999 else from[oldindex].num;
      ghost var record;
      assert newindex < |to| ==> to[newindex..][1..] == to[newindex + 1..];
      assert oldindex < |from| ==> from[oldindex..][1..] == from[oldindex + 1..];
      if newnum == oldnum {
        EmitEqual(fmt, base, from[oldindex..], to[newindex..]);
        record := DeltaBytes(fmt, newnum, from[oldindex].state, to[newindex].state, false);
        WriteDelta(msg, fmt, newnum, from[oldindex].state, to[newindex].state, false);
        oldindex := oldindex + 1;
        newindex := newindex + 1;
      } else if newnum < oldnum {
        EmitAdd(fmt, base, from[oldindex..], to[newindex..]);
        record := DeltaBytes(fmt, newnum, Baseline(base, newnum), to[newindex].state, true);
        WriteDelta(msg, fmt, newnum, Baseline(base, newnum), to[newindex].state, true);
        newindex := newindex + 1;
      } else {
        EmitRemove(fmt, base, from[oldindex..], to[newindex..]);
        record := RemoveBytes(oldnum);
        WriteRemove(msg, oldnum);
        oldindex := oldindex + 1;
      }
      ClipJoin(was, done, record, msg.maxsize);
      ghost var left := Emit(fmt, base, from[oldindex..], to[newindex..]);
      assert done + record + left == done + (record + left);
      done := done + record;
    }
    assert from[oldindex..] == [] && to[newindex..] == [] && done + [] == done;
  }

  /** SV_EmitPacketEntities; `delta` is -1 when the client asked for no reference. */
  method EmitPacketEntities(msg: NetMsg, fmt: Format, base: Baselines, delta: int, from: Frame, to: Frame)
    requires msg.Valid()
    requires ValidFrame(from) && ValidFrame(to)
    modifies msg`cursize, msg.data
    ensures msg.Valid()
    ensures msg.Contents() == Clip(old(msg.Contents()) + EmitFrame(fmt, base, delta, from, to), msg.maxsize)
  {
    hide Emit, Short, Clip;
    ghost var was := msg.Contents();
    var reference := from;
    if delta != -1 {
      msg.WriteString2([SVC_DELTAPACKETENTITIES, delta % 0x100]);
    } else {
      reference := [];
      msg.WriteByte(SVC_PACKETENTITIES);
    }
    ghost var kind := FrameKind(delta);
    EmitRecords(msg, fmt, base, reference, to);
    ghost var records := Emit(fmt, base, reference, to);
    ClipJoin(was, kind, records, msg.maxsize);
    msg.WriteShort(0);
    ClipJoin(was, kind + records, Short(0), msg.maxsize);
    assert kind + records + Short(0) == kind + (records + Short(0));
  }

  method SendInitialRecords(msg: NetMsg, fmt: Format, base: Baselines, f: Frame)
    requires msg.Valid()
    modifies msg`cursize, msg.data
    ensures msg.Valid() && msg.Contents() == Clip(old(msg.Contents()) + InitialRecords(fmt, base, f), msg.maxsize)
  {
    hide DeltaBytes, Clip;
    ghost var was := msg.Contents();
    ghost var done: seq<Byte> := [];
    assert was + [] == was == Clip(was, msg.maxsize) && f[0..] == f;
    for i := 0 to |f|
      invariant msg.Valid() && msg.Contents() == Clip(was + done, msg.maxsize)
      invariant done + InitialRecords(fmt, base, f[i..]) == InitialRecords(fmt, base, f)
    {
      var baseline := Baseline(base, f[i].num);
      ghost var record := DeltaBytes(fmt, f[i].num, baseline, f[i].state, true);
      WriteDelta(msg, fmt, f[i].num, baseline, f[i].state, true);
      ClipJoin(was, done, record, msg.maxsize);
      assert f[i..][1..] == f[i + 1..];
      done := done + record;
    }
    assert done + [] == done;
  }

  /** Prox_SendInitialEnts. */
  method SendInitialEnts(msg: NetMsg, fmt: Format, base: Baselines, f: Frame)
    requires msg.Valid()
    modifies msg`cursize, msg.data
    ensures msg.Valid()
    ensures msg.Contents() == Clip(old(msg.Contents()) + ([SVC_PACKETENTITIES]
                                   + (InitialRecords(fmt, base, f) + Short(0))), msg.maxsize)
  {
    hide InitialRecords, Short, Clip;
    ghost var was := msg.Contents();
    ghost var records := InitialRecords(fmt, base, f);
    msg.WriteByte(SVC_PACKETENTITIES);
    SendInitialRecords(msg, fmt, base, f);
    ClipJoin(was, [SVC_PACKETENTITIES], records, msg.maxsize);
    msg.WriteShort(0);
    ClipJoin(was, [SVC_PACKETENTITIES] + records, Short(0), msg.maxsize);
    assert [SVC_PACKETENTITIES] + records + Short(0) == [SVC_PACKETENTITIES] + (records + Short(0));
  }

  // ---------- Parsing ----------

  /** A frame whose array grows on demand; each entry holds a number and a state. */
  class FrameBuf {
    var ents: array<Ent>
    var numents: nat

    ghost predicate Valid()
      reads this
    {
      numents <= ents.Length
    }

    ghost function View(): Frame
      requires Valid()
      reads this, ents
    {
      ents[..numents]
    }

    constructor ()
      ensures Valid() && View() == [] && fresh(ents)
    {
      ents := new Ent[0];
      numents := 0;
    }

    /** ExpandFrame: afterwards there is room at `newmax`, and what was stored is kept. */
    method Expand(newmax: nat)
      requires newmax <= ents.Length
      modifies this`ents
      ensures newmax < ents.Length && ents[..newmax] == old(ents[..newmax])
      ensures ents == old(ents) || fresh(ents)
    {
      if newmax < ents.Length {
        return;
      }
      var newents := new Ent[newmax + 16](_ => Ent(0, NULL_ENTITY));
      for i := 0 to ents.Length
        invariant ents == old(ents) && ents[..] == old(ents[..])
        invariant newents[..i] == ents[..i]
      {
        newents[i] := ents[i];
      }
      ents := newents;
    }

    /** Stores an entity at `index`, growing the array if needed. */
    method Put(index: nat, e: Ent)
      requires index <= ents.Length
      modifies this`ents, ents
      ensures index < ents.Length && ents[..index + 1] == old(ents[..index]) + [e]
      ensures ents == old(ents) || fresh(ents)
    {
      Expand(index);
      ents[index] := e;
    }
  }

  /** Carries the old entities from `oldindex` on over to the end of the new frame. */
  method CopyRemaining(oldframe: Frame, oldindex: nat, newframe: FrameBuf, newindex: nat) returns (count: nat)
    requires oldindex <= |oldframe| && newindex <= newframe.ents.Length
    modifies newframe`ents, newframe.ents
    ensures newframe.ents == old(newframe.ents) || fresh(newframe.ents)
    ensures count <= newframe.ents.Length
    ensures newframe.ents[..count] == old(newframe.ents[..newindex]) + oldframe[oldindex..]
  {
    count := newindex;
    for i := oldindex to |oldframe|
      invariant newframe.ents == old(newframe.ents) || fresh(newframe.ents)
      invariant count <= newframe.ents.Length
      invariant newframe.ents[..count] == old(newframe.ents[..newindex]) + oldframe[oldindex..i]
    {
      newframe.Put(count, oldframe[i]);
      count := count + 1;
    }
  }

  /** What is left to parse, put behind what has been stored, is the whole result. */
  ghost predicate Splits(all: (Frame, seq<Byte>), stored: Frame, left: (Frame, seq<Byte>)) {
    all == (stored + left.0, left.1)
  }

  /** Carries over the old entities that come before entity `num`. */
  method CopyBefore(num: nat, oldframe: Frame, oldindex: nat, newframe: FrameBuf, newindex: nat,
                    fmt: Format, base: Baselines, ghost s: seq<Byte>, ghost all: (Frame, seq<Byte>))
    returns (from: nat, count: nat)
    requires oldindex <= |oldframe| && newindex <= newframe.ents.Length
    requires num == ReadHeader(s).num != 0
    requires Splits(all, newframe.ents[..newindex], ParseEnts(fmt, base, oldframe[oldindex..], s))
    modifies newframe`ents, newframe.ents
    ensures newframe.ents == old(newframe.ents) || fresh(newframe.ents)
    ensures oldindex <= from <= |oldframe| && count <= newframe.ents.Length
    ensures from < |oldframe| ==> num <= oldframe[from].num
    ensures Splits(all, newframe.ents[..count], ParseEnts(fmt, base, oldframe[from..], s))
  {
    hide ReadHeader, ReadDelta, Baseline;
    from, count := oldindex, newindex;
    while from < |oldframe| && num > oldframe[from].num
      invariant newframe.ents == old(newframe.ents) || fresh(newframe.ents)
      invariant oldindex <= from <= |oldframe| && count <= newframe.ents.Length
      invariant Splits(all, newframe.ents[..count], ParseEnts(fmt, base, oldframe[from..], s))
    {
      ghost var stored := newframe.ents[..count];
      newframe.Put(count, oldframe[from]);
      assert oldframe[from..][1..] == oldframe[from + 1..];
      ghost var left := ParseEnts(fmt, base, oldframe[from + 1..], s).0;
      assert stored + ([oldframe[from]] + left) == stored + [oldframe[from]] + left;
      from, count := from + 1, count + 1;
    }
  }

  /** One record after its header: the old entities before it, then what it adds, changes or removes. */
  method TakeRecord(msg: NetMsg, num: nat, flags: Flags, fmt: Format, base: Baselines, oldframe: Frame, oldindex: nat,
                    newframe: FrameBuf, newindex: nat, ghost start: seq<Byte>, ghost all: (Frame, seq<Byte>))
    returns (from: nat, count: nat)
    requires msg.Valid() && oldindex <= |oldframe| && newindex <= newframe.ents.Length
    requires Header(num, flags, msg.Unread()) == ReadHeader(start) && num != 0
    requires Splits(all, newframe.ents[..newindex], ParseEnts(fmt, base, oldframe[oldindex..], start))
    modifies msg`readpos, newframe`ents, newframe.ents
    ensures newframe.ents == old(newframe.ents) || fresh(newframe.ents)
    ensures from <= |oldframe| && count <= newframe.ents.Length && |msg.Unread()| < |start|
    ensures Splits(all, newframe.ents[..count], ParseEnts(fmt, base, oldframe[from..], msg.Unread()))
  {
    hide ReadHeader, ReadDelta, Baseline, ParseEnts;
    from, count := CopyBefore(num, oldframe, oldindex, newframe, newindex, fmt, base, start, all);
    ghost var prev := oldframe[from..];
    var known := from < |oldframe| && num == oldframe[from].num;
    var reference := if known then oldframe[from].state else Baseline(base, num);
    if known {
      from := from + 1;
    }
    assert oldframe[from..] == if known then prev[1..] else prev;
    if flags.mid.remove {
      ParseRemoved(fmt, base, prev, start);
      return;
    }
    var e := ParseDelta(msg, fmt, flags, reference);
    ParseRecord(fmt, base, prev, start, known, e, msg.Unread());
    SplitsMore(all, newframe.ents[..count], Ent(num, e), ParseEnts(fmt, base, oldframe[from..], msg.Unread()));
    newframe.Put(count, Ent(num, e));
    count := count + 1;
  }

  /**
   * ParsePacketEntities: fills `newframe` from the records in `msg`, relative to `oldframe`.
   */
  method ParsePacketEntities(msg: NetMsg, fmt: Format, base: Baselines, oldframe: Frame, newframe: FrameBuf)
    requires msg.Valid() && newframe.Valid()
    modifies msg`readpos, newframe, newframe.ents
    ensures newframe.Valid()
    ensures (newframe.View(), msg.Unread()) == ParseEnts(fmt, base, oldframe, old(msg.Unread()))
  {
    hide ReadHeader, ReadDelta, Baseline, ParseEnts;
    var oldindex: nat, newindex: nat := 0, 0;
    ghost var all := ParseEnts(fmt, base, oldframe, msg.Unread());
    assert oldframe[0..] == oldframe && newframe.ents[..0] + all.0 == all.0;
    while true
      invariant oldindex <= |oldframe| && newindex <= newframe.ents.Length
      invariant newframe.ents == old(newframe.ents) || fresh(newframe.ents)
      invariant Splits(all, newframe.ents[..newindex], ParseEnts(fmt, base, oldframe[oldindex..], msg.Unread()))
      decreases |msg.Unread()|
    {
      ghost var start := msg.Unread();
      var num, flags := ParseHeader(msg);
      if num == 0 {
        ParseEnd(fmt, base, oldframe[oldindex..], start);
        newindex := CopyRemaining(oldframe, oldindex, newframe, newindex);
        break;
      }
      oldindex, newindex := TakeRecord(msg, num, flags, fmt, base, oldframe, oldindex, newframe, newindex, start, all);
    }
    newframe.numents := newindex;
  }

  lemma ParseEnd(fmt: Format, base: Baselines, prev: Frame, s: seq<Byte>)
    requires ReadHeader(s).num == 0
    ensures ParseEnts(fmt, base, prev, s) == (prev, ReadHeader(s).rest)
  {
  }

  /** A record that is not a removal yields one entity, with or without an old one of its number. */
  lemma ParseRecord(fmt: Format, base: Baselines, prev: Frame, s: seq<Byte>, known: bool, e: Entity, tail: seq<Byte>)
    requires var h := ReadHeader(s);
             && h.num != 0 && !h.flags.mid.remove
             && (known <==> prev != [] && prev[0].num == h.num) && (prev == [] || h.num <= prev[0].num)
             && ReadDelta(fmt, h.flags, if known then prev[0].state else Baseline(base, h.num), h.rest) == (e, tail)
    ensures var (f, rest) := ParseEnts(fmt, base, if known then prev[1..] else prev, tail);
            ParseEnts(fmt, base, prev, s) == ([Ent(ReadHeader(s).num, e)] + f, rest)
  {
    hide ReadHeader, ReadDelta, Baseline, ParseEnts;
    if known {
      ParseChanged(fmt, base, prev, s, e, tail);
    } else {
      ParseAdded(fmt, base, prev, s, e, tail);
    }
  }

  lemma SplitsMore(all: (Frame, seq<Byte>), stored: Frame, e: Ent, left: (Frame, seq<Byte>))
    requires Splits(all, stored, ([e] + left.0, left.1))
    ensures Splits(all, stored + [e], left)
  {
    assert stored + ([e] + left.0) == stored + [e] + left.0;
  }
}
