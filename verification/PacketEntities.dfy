/**
 * Entity frames (fteqtv/qw.c, fteqtv/parse.c): the emitter merges two sorted frames into add, change
 * and remove records, and the parser merges the records back into a sorted frame.
 */
module PacketEntities {
  import opened Msg
  import opened Delta
  import opened DeltaCodec

  const SVC_PACKETENTITIES: Byte := 47
  const SVC_DELTAPACKETENTITIES: Byte := 48

  datatype Ent = Ent(num: nat, state: Entity)

  type Frame = seq<Ent>
  /** The baselines, by entity number. */
  type Baselines = seq<Entity>

  const NULL_ENTITY := Entity(0, 0, 0, 0, 0.0, 0.0, 0.0, 0.0, 0.0, 0.0, 0, 0, 0)

  function Baseline(base: Baselines, num: nat): Entity {
    if num < |base| then base[num] else NULL_ENTITY
  }

  ghost predicate ValidFrame(f: Frame) {
    && (forall i :: 0 <= i < |f| ==> 0 < f[i].num < MAX_ENTITIES)
    && (forall i, j :: 0 <= i < j < |f| ==> f[i].num < f[j].num)
  }

  function QuantiseFrame(fmt: Format, f: Frame): (q: Frame)
    ensures |q| == |f|
    ensures forall i :: 0 <= i < |f| ==> q[i] == Ent(f[i].num, Quantise(fmt, f[i].state))
  {
    seq(|f|, i requires 0 <= i < |f| => Ent(f[i].num, Quantise(fmt, f[i].state)))
  }

  function QuantiseBaselines(fmt: Format, base: Baselines): (q: Baselines)
    ensures |q| == |base| && forall i :: 0 <= i < |base| ==> q[i] == Quantise(fmt, base[i])
  {
    seq(|base|, i requires 0 <= i < |base| => Quantise(fmt, base[i]))
  }

  // ---------- Emitting ----------

  function RemoveBytes(num: nat): (s: seq<Byte>)
    ensures |s| == 2
  {
    Short(num + 0x4000)
  }

  function NextNum(f: Frame, none: nat): nat {
    if f == [] then none else f[0].num
  }

  /** The records of SV_EmitPacketEntities between its first byte and its terminator. */
  function Emit(fmt: Format, base: Baselines, from: Frame, to: Frame): seq<Byte>
    decreases |from| + |to|
  {
    if from == [] && to == [] then []
    else
      var newnum, oldnum := NextNum(to, 9999), NextNum(from, 9999);
      if newnum == oldnum && from != [] && to != [] then
        DeltaBytes(fmt, newnum, from[0].state, to[0].state, false) + Emit(fmt, base, from[1..], to[1..])
      else if newnum < oldnum && to != [] then
        DeltaBytes(fmt, newnum, Baseline(base, newnum), to[0].state, true) + Emit(fmt, base, from, to[1..])
      else if from != [] then
        RemoveBytes(oldnum) + Emit(fmt, base, from[1..], to)
      else []
  }

  function FrameKind(delta: int): seq<Byte> {
    if delta != -1 then [SVC_DELTAPACKETENTITIES, delta % 0x100] else [SVC_PACKETENTITIES]
  }

  /** A whole frame: its kind, the reference it is relative to, the records and the terminator. */
  function EmitFrame(fmt: Format, base: Baselines, delta: int, from: Frame, to: Frame): seq<Byte> {
    FrameKind(delta) + (Emit(fmt, base, if delta != -1 then from else [], to) + Short(0))
  }

  // ---------- Parsing ----------

  /** ParsePacketEntities after its first byte: the new frame and what follows the terminator. */
  function ParseEnts(fmt: Format, base: Baselines, prev: Frame, s: seq<Byte>): (r: (Frame, seq<Byte>))
    decreases |s| + |prev|
  {
    var h := ReadHeader(s);
    var oldnum := NextNum(prev, 0xffff);
    if h.num == 0 then (prev, h.rest)
    else if h.num > oldnum && prev != [] then
      var (f, rest) := ParseEnts(fmt, base, prev[1..], s);
      ([prev[0]] + f, rest)
    else if h.num == oldnum && prev != [] then
      if h.flags.mid.remove then ParseEnts(fmt, base, prev[1..], h.rest)
      else
        var (e, s') := ReadDelta(fmt, h.flags, prev[0].state, h.rest);
        var (f, rest) := ParseEnts(fmt, base, prev[1..], s');
        ([Ent(h.num, e)] + f, rest)
    else
      if h.flags.mid.remove then ParseEnts(fmt, base, prev, h.rest)
      else
        var (e, s') := ReadDelta(fmt, h.flags, Baseline(base, h.num), h.rest);
        var (f, rest) := ParseEnts(fmt, base, prev, s');
        ([Ent(h.num, e)] + f, rest)
  }

  // ---------- Round trip ----------

  lemma RemoveRoundTrip(num: nat, rest: seq<Byte>)
    requires 0 < num < MAX_ENTITIES
    ensures var h := ReadHeader(RemoveBytes(num) + rest);
            h.num == num && h.flags.mid.remove && h.rest == rest
  {
    var b2: Byte := (num + 0x4000) / 0x100 % 0x100;
    var s := RemoveBytes(num) + rest;
    assert First(s) == num % 0x100 && First(Rest(s)) == b2;
    assert Rest(Rest(s)) == rest;
    var bits := Bits(b2, 8);
    if num >= 0x100 {
      assert b2 == 0x41;
      assert Bits(0x41, 8) == [true, false, false, false, false, false, true, false];
    } else {
      assert b2 == 0x40;
      assert Bits(0x40, 8) == [false, false, false, false, false, false, true, false];
    }
  }

  /** Entities that have not changed cost nothing. */
  lemma {:induction false} UnchangedIsEmpty(fmt: Format, base: Baselines, f: Frame)
    ensures Emit(fmt, base, f, f) == []
  {
    hide DeltaBytes;
    if f != [] {
      UnchangedIsEmpty(fmt, base, f[1..]);
      NoRecord(fmt, f[0].num, f[0].state);
    }
  }

  lemma NoRecord(fmt: Format, num: nat, e: Entity)
    ensures DeltaBytes(fmt, num, e, e, false) == []
  {
    NoFlagsNoDifference(e, e);
  }

  /** A new entity travels as its difference to its baseline: one that is as its baseline, as its number alone. */
  lemma FromBaseline(fmt: Format, base: Baselines, num: nat, rest: seq<Byte>)
    requires 0 < num < 512 && num < |base|
    ensures Emit(fmt, base, [], [Ent(num, base[num])]) == Short(num)
    ensures ParseEnts(fmt, base, [], Short(num) + (Short(0) + rest)) == ([Ent(num, base[num])], rest)
  {
    hide Short, ReadHeader;
    hide ReadDelta, Baseline, DeltaBytes;
    var e, to := base[num], [Ent(num, base[num])];
    NoDifference(fmt, num, e);
    BaselineIs(base, num);
    assert to[1..] == [] && Emit(fmt, base, [], []) == [];
    assert Emit(fmt, base, [], to) == Short(num) + [] == Short(num);
    TerminatorEnds(rest);
    PlainRecord(fmt, num, e, Short(0) + rest);
    assert ParseEnts(fmt, base, [], Short(0) + rest) == ([], rest);
    NewEntity(fmt, base, Short(num) + (Short(0) + rest));
    assert [Ent(num, e)] + [] == [Ent(num, e)];
  }

  lemma NewEntity(fmt: Format, base: Baselines, s: seq<Byte>)
    requires var h := ReadHeader(s); h.num != 0 && !h.flags.mid.remove
    ensures var h := ReadHeader(s);
            var (e, more) := ReadDelta(fmt, h.flags, Baseline(base, h.num), h.rest);
            var (f, rest) := ParseEnts(fmt, base, [], more);
            ParseEnts(fmt, base, [], s) == ([Ent(h.num, e)] + f, rest)
  {
    hide ReadHeader, ReadDelta, Baseline;
  }

  lemma BaselineIs(base: Baselines, num: nat)
    requires num < |base|
    ensures Baseline(base, num) == base[num]
  {
  }

  lemma NoDifference(fmt: Format, num: nat, e: Entity)
    requires num < 512
    ensures DeltaBytes(fmt, num, e, e, true) == Short(num)
  {
    hide DeltaBytes, Short;
    RecordLayout(fmt, num, e, e, true);
    assert Short(num) + [] + [] + [] + FieldLayout(fmt, e, e) == Short(num);
  }

  /** A record of nothing but a number leaves the state as it is. */
  lemma PlainRecord(fmt: Format, num: nat, e: Entity, rest: seq<Byte>)
    requires 0 < num < 512
    ensures var h := ReadHeader(Short(num) + rest);
            && h.num == num && !h.flags.mid.remove && h.rest == rest
            && ReadDelta(fmt, h.flags, e, h.rest) == (e, rest)
  {
    hide ReadHeader, HeaderBytes, DeltaBytes, DeltaFlags, ORDER, Present, Same, ReadFields;
    var f := DeltaFlags(e, e);
    DeltaFlagsDescribed(e, e);
    HeaderRoundTrip(num, f, rest);
    PlainHeader(fmt, num, e);
    forall i | 0 <= i < |ORDER|
      ensures !Present(ORDER[i], f)
    {
      PresentIffDifferent(fmt, ORDER[i], e, e);
      SameAsItself(ORDER[i], e);
    }
    NothingRead(fmt, ORDER, f, e, rest);
  }

  lemma PlainHeader(fmt: Format, num: nat, e: Entity)
    requires num < 512
    ensures HeaderBytes(num, DeltaFlags(e, e)) == Short(num)
  {
    hide HeaderBytes, DeltaFlags, Short, WriteFields, FieldLayout;
    NoDifference(fmt, num, e);
    FieldsInOrder(fmt, e, e);
    NoFieldDiffers(fmt, e);
    var s := HeaderBytes(num, DeltaFlags(e, e));
    assert DeltaBytes(fmt, num, e, e, true) == s + [] == s;
  }

  lemma NoFieldDiffers(fmt: Format, e: Entity)
    ensures FieldLayout(fmt, e, e) == []
  {
  }

  lemma SameAsItself(field: Field, e: Entity)
    ensures Same(field, e, e)
  {
  }

  lemma {:induction false} NothingRead(fmt: Format, fields: seq<Field>, f: Flags, e: Entity, s: seq<Byte>)
    requires forall i :: 0 <= i < |fields| ==> !Present(fields[i], f)
    ensures ReadFields(fmt, fields, f, e, s) == (e, s)
  {
    hide Present;
    if fields != [] {
      NothingRead(fmt, fields[1..], f, e, s);
    }
  }

  lemma TerminatorEnds(rest: seq<Byte>)
    ensures ReadHeader(Short(0) + rest).num == 0 && ReadHeader(Short(0) + rest).rest == rest
  {
    var s := Short(0) + rest;
    assert First(s) == 0 && First(Rest(s)) == 0 && Rest(Rest(s)) == rest;
  }

  /** Old entities below the next record's number are carried over unchanged. */
  lemma {:induction false} Propagate(fmt: Format, base: Baselines, kept: Frame, prev: Frame, s: seq<Byte>)
    requires s != [] && forall i :: 0 <= i < |kept| ==> kept[i].num < ReadHeader(s).num
    ensures var (f, rest) := ParseEnts(fmt, base, prev, s);
            ParseEnts(fmt, base, kept + prev, s) == (kept + f, rest)
    decreases |kept|
  {
    hide ReadHeader;
    var (f, rest) := ParseEnts(fmt, base, prev, s);
    if kept == [] {
      assert kept + prev == prev && kept + f == f;
    } else {
      assert (kept + prev)[1..] == kept[1..] + prev;
      assert [kept[0]] + (kept[1..] + f) == kept + f;
      Propagate(fmt, base, kept[1..], prev, s);
    }
  }

  lemma QuantiseAppend(fmt: Format, f: Frame, g: Frame)
    ensures QuantiseFrame(fmt, f + g) == QuantiseFrame(fmt, f) + QuantiseFrame(fmt, g)
  {
  }

  lemma ValidTail(f: Frame, k: nat)
    requires ValidFrame(f) && k <= |f|
    ensures ValidFrame(f[k..]) && forall i :: k <= i < |f| ==> f[k..][i - k] == f[i]
  {
  }

  /**
   * The records turn the quantised old frame into the quantised new one.  `kept` holds old entities
   * that did not change: nothing was written for them, and the parser has yet to carry them over.
   * `end` is whatever reads as the end of the records.
   */
  lemma {:induction false} MergeRoundTrip(fmt: Format, base: Baselines, kept: Frame, from: Frame, to: Frame,
                                          end: seq<Byte>)
    requires ValidFrame(kept + from) && ValidFrame(kept + to) && |base| == MAX_ENTITIES && ReadHeader(end).num == 0
    ensures ParseEnts(fmt, QuantiseBaselines(fmt, base), QuantiseFrame(fmt, kept + from),
                      Emit(fmt, base, from, to) + end)
            == (QuantiseFrame(fmt, kept + to), ReadHeader(end).rest)
    decreases |from| + |to|
  {
    hide ReadHeader, DeltaBytes, ReadDelta, Quantise, RemoveBytes, Short, DeltaFlags, QuantiseBaselines;
    var s := Emit(fmt, base, from, to) + end;
    if from == [] && to == [] {
      assert s == end;
      EndOfFrame(fmt, QuantiseBaselines(fmt, base), QuantiseFrame(fmt, kept), end);
      assert kept + from == kept && kept + to == kept;
    } else if from != [] && to != [] && from[0].num == to[0].num {
      if from[0].state == to[0].state {
        MergeSame(fmt, base, kept, from, to, end);
      } else {
        MergeChanged(fmt, base, kept, from, to, end);
      }
    } else if to != [] && (from == [] || to[0].num < from[0].num) {
      MergeAdd(fmt, base, kept, from, to, end);
    } else {
      MergeRemove(fmt, base, kept, from, to, end);
    }
  }

  /** Number 0 ends the records; the rest of the old frame is carried over. */
  lemma EndOfFrame(fmt: Format, base: Baselines, prev: Frame, end: seq<Byte>)
    requires ReadHeader(end).num == 0
    ensures ParseEnts(fmt, base, prev, end) == (prev, ReadHeader(end).rest)
  {
    hide ReadHeader;
  }

  // One record of the parser at a time.

  lemma ParseChanged(fmt: Format, base: Baselines, prev: Frame, s: seq<Byte>, e: Entity, tail: seq<Byte>)
    requires var h := ReadHeader(s);
             && h.num != 0 && prev != [] && prev[0].num == h.num && !h.flags.mid.remove
             && ReadDelta(fmt, h.flags, prev[0].state, h.rest) == (e, tail)
    ensures var (f, rest) := ParseEnts(fmt, base, prev[1..], tail);
            ParseEnts(fmt, base, prev, s) == ([Ent(prev[0].num, e)] + f, rest)
  {
    hide ReadHeader, ReadDelta;
  }

  lemma ParseAdded(fmt: Format, base: Baselines, prev: Frame, s: seq<Byte>, e: Entity, tail: seq<Byte>)
    requires var h := ReadHeader(s);
             && h.num != 0 && (prev == [] || h.num < prev[0].num) && !h.flags.mid.remove
             && ReadDelta(fmt, h.flags, Baseline(base, h.num), h.rest) == (e, tail)
    ensures var (f, rest) := ParseEnts(fmt, base, prev, tail);
            ParseEnts(fmt, base, prev, s) == ([Ent(ReadHeader(s).num, e)] + f, rest)
  {
    hide ReadHeader, ReadDelta, Baseline;
  }

  lemma ParseRemoved(fmt: Format, base: Baselines, prev: Frame, s: seq<Byte>)
    requires var h := ReadHeader(s);
             h.num != 0 && (prev == [] || h.num <= prev[0].num) && h.flags.mid.remove
    ensures ParseEnts(fmt, base, prev, s)
            == ParseEnts(fmt, base, if prev != [] && prev[0].num == ReadHeader(s).num then prev[1..] else prev,
                         ReadHeader(s).rest)
  {
    hide ReadHeader, ReadDelta;
  }

  lemma QuantiseHead(fmt: Format, f: Frame)
    requires f != []
    ensures QuantiseFrame(fmt, f)[0] == Ent(f[0].num, Quantise(fmt, f[0].state))
    ensures QuantiseFrame(fmt, f)[1..] == QuantiseFrame(fmt, f[1..])
    ensures QuantiseFrame(fmt, f) == [Ent(f[0].num, Quantise(fmt, f[0].state))] + QuantiseFrame(fmt, f[1..])
  {
    hide Quantise;
  }

  /** What remains of a merge after its first record, as the induction needs it. */
  lemma Rest1(fmt: Format, kept: Frame, f: Frame, k: nat)
    requires ValidFrame(kept + f) && k <= |f|
    ensures ValidFrame([] + f[k..]) && [] + f[k..] == f[k..]
    ensures k > 0 ==> 0 < f[0].num < MAX_ENTITIES && forall i :: 0 <= i < |kept| ==> kept[i].num < f[0].num
  {
    assert [] + f[k..] == f[k..] == (kept + f)[|kept| + k..];
    ValidTail(kept + f, |kept| + k);
    if k > 0 {
      assert (kept + f)[|kept|] == f[0];
      forall i | 0 <= i < |kept|
        ensures kept[i].num < f[0].num
      {
        assert (kept + f)[i] == kept[i];
      }
    }
  }

  lemma EmitEqual(fmt: Format, base: Baselines, from: Frame, to: Frame)
    requires from != [] && to != [] && from[0].num == to[0].num
    ensures Emit(fmt, base, from, to)
            == DeltaBytes(fmt, to[0].num, from[0].state, to[0].state, false) + Emit(fmt, base, from[1..], to[1..])
  {
    hide DeltaBytes, RemoveBytes;
  }

  /** Nothing is written for an entity that did not change. */
  lemma MergeSame(fmt: Format, base: Baselines, kept: Frame, from: Frame, to: Frame, end: seq<Byte>)
    requires ValidFrame(kept + from) && ValidFrame(kept + to) && |base| == MAX_ENTITIES && ReadHeader(end).num == 0
    requires from != [] && to != [] && from[0] == to[0]
    ensures ParseEnts(fmt, QuantiseBaselines(fmt, base), QuantiseFrame(fmt, kept + from),
                      Emit(fmt, base, from, to) + end)
            == (QuantiseFrame(fmt, kept + to), ReadHeader(end).rest)
    decreases |from| + |to|, 0
  {
    hide *;
    var state := to[0].state;
    EmitEqual(fmt, base, from, to);
    NumberInRange(kept, to);
    DeltaRoundTrip(fmt, to[0].num, state, state, false, []);
    assert Emit(fmt, base, from, to) == Emit(fmt, base, from[1..], to[1..]);
    assert kept + from == (kept + [from[0]]) + from[1..] && kept + to == (kept + [from[0]]) + to[1..];
    MergeRoundTrip(fmt, base, kept + [from[0]], from[1..], to[1..], end);
  }

  lemma NumberInRange(kept: Frame, f: Frame)
    requires ValidFrame(kept + f) && f != []
    ensures 0 < f[0].num < 512
  {
    assert (kept + f)[|kept|] == f[0];
  }

  lemma MergeChanged(fmt: Format, base: Baselines, kept: Frame, from: Frame, to: Frame, end: seq<Byte>)
    requires ValidFrame(kept + from) && ValidFrame(kept + to) && |base| == MAX_ENTITIES && ReadHeader(end).num == 0
    requires from != [] && to != [] && from[0].num == to[0].num && from[0].state != to[0].state
    ensures ParseEnts(fmt, QuantiseBaselines(fmt, base), QuantiseFrame(fmt, kept + from),
                      Emit(fmt, base, from, to) + end)
            == (QuantiseFrame(fmt, kept + to), ReadHeader(end).rest)
    decreases |from| + |to|, 0
  {
    hide ReadHeader, DeltaBytes, ReadDelta, Quantise, RemoveBytes, Short, DeltaFlags, QuantiseBaselines;
    hide ParseEnts, QuantiseFrame, Emit, ValidFrame;
    var q, num := QuantiseBaselines(fmt, base), to[0].num;
    Rest1(fmt, kept, to, 1);
    Rest1(fmt, kept, from, 1);
    EmitEqual(fmt, base, from, to);
    var tail := Emit(fmt, base, from[1..], to[1..]) + end;
    var s := DeltaBytes(fmt, num, from[0].state, to[0].state, false) + tail;
    assert Emit(fmt, base, from, to) + end == s;
    DeltaRoundTrip(fmt, num, from[0].state, to[0].state, false, tail);
    MergeRoundTrip(fmt, base, [], from[1..], to[1..], end);
    QuantiseHead(fmt, from);
    QuantiseHead(fmt, to);
    DeltaFlagsDescribed(from[0].state, to[0].state);
    ParseChanged(fmt, q, QuantiseFrame(fmt, from), s, Quantise(fmt, to[0].state), tail);
    Assemble(fmt, q, kept, from, to, s, ReadHeader(end).rest);
  }

  /** Entities kept from before go in front of what the rest of the parse produces. */
  lemma Assemble(fmt: Format, q: Baselines, kept: Frame, from: Frame, to: Frame, s: seq<Byte>, rest: seq<Byte>)
    requires ParseEnts(fmt, q, QuantiseFrame(fmt, from), s) == (QuantiseFrame(fmt, to), rest)
    requires s != [] && forall i :: 0 <= i < |kept| ==> kept[i].num < ReadHeader(s).num
    ensures ParseEnts(fmt, q, QuantiseFrame(fmt, kept + from), s) == (QuantiseFrame(fmt, kept + to), rest)
  {
    hide ReadHeader, Quantise, ParseEnts;
    QuantiseAppend(fmt, kept, from);
    QuantiseAppend(fmt, kept, to);
    Propagate(fmt, q, QuantiseFrame(fmt, kept), QuantiseFrame(fmt, from), s);
  }

  lemma MergeAdd(fmt: Format, base: Baselines, kept: Frame, from: Frame, to: Frame, end: seq<Byte>)
    requires ValidFrame(kept + from) && ValidFrame(kept + to) && |base| == MAX_ENTITIES && ReadHeader(end).num == 0
    requires to != [] && (from == [] || to[0].num < from[0].num)
    ensures ParseEnts(fmt, QuantiseBaselines(fmt, base), QuantiseFrame(fmt, kept + from),
                      Emit(fmt, base, from, to) + end)
            == (QuantiseFrame(fmt, kept + to), ReadHeader(end).rest)
    decreases |from| + |to|, 0
  {
    hide ReadHeader, DeltaBytes, ReadDelta, Quantise, RemoveBytes, Short, DeltaFlags, QuantiseBaselines;
    hide ParseEnts, QuantiseFrame, ValidFrame;
    var q, num := QuantiseBaselines(fmt, base), to[0].num;
    Rest1(fmt, kept, to, 1);
    Rest1(fmt, kept, from, 0);
    var bytes := DeltaBytes(fmt, num, base[num], to[0].state, true);
    var tail := Emit(fmt, base, from, to[1..]) + end;
    var s := bytes + tail;
    EmitAdd(fmt, base, from, to);
    assert Emit(fmt, base, from, to) + end == s;
    DeltaRoundTrip(fmt, num, base[num], to[0].state, true, tail);
    assert from[0..] == from;
    MergeRoundTrip(fmt, base, [], from, to[1..], end);
    QuantiseHead(fmt, to);
    if from != [] {
      QuantiseHead(fmt, from);
    }
    DeltaFlagsDescribed(base[num], to[0].state);
    ParseAdded(fmt, q, QuantiseFrame(fmt, from), s, Quantise(fmt, to[0].state), tail);
    Assemble(fmt, q, kept, from, to, s, ReadHeader(end).rest);
  }

  lemma EmitAdd(fmt: Format, base: Baselines, from: Frame, to: Frame)
    requires to != [] && to[0].num < MAX_ENTITIES && (from == [] || to[0].num < from[0].num)
    ensures Emit(fmt, base, from, to)
            == DeltaBytes(fmt, to[0].num, Baseline(base, to[0].num), to[0].state, true)
               + Emit(fmt, base, from, to[1..])
  {
    hide DeltaBytes, RemoveBytes;
  }

  lemma EmitRemove(fmt: Format, base: Baselines, from: Frame, to: Frame)
    requires from != [] && from[0].num < MAX_ENTITIES && (to == [] || from[0].num < to[0].num)
    ensures Emit(fmt, base, from, to) == RemoveBytes(from[0].num) + Emit(fmt, base, from[1..], to)
  {
    hide DeltaBytes, RemoveBytes;
  }

  lemma MergeRemove(fmt: Format, base: Baselines, kept: Frame, from: Frame, to: Frame, end: seq<Byte>)
    requires ValidFrame(kept + from) && ValidFrame(kept + to) && |base| == MAX_ENTITIES && ReadHeader(end).num == 0
    requires from != [] && (to == [] || from[0].num < to[0].num)
    ensures ParseEnts(fmt, QuantiseBaselines(fmt, base), QuantiseFrame(fmt, kept + from),
                      Emit(fmt, base, from, to) + end)
            == (QuantiseFrame(fmt, kept + to), ReadHeader(end).rest)
    decreases |from| + |to|, 0
  {
    hide ReadHeader, DeltaBytes, ReadDelta, Quantise, RemoveBytes, Short, DeltaFlags, QuantiseBaselines;
    hide ParseEnts, QuantiseFrame, Emit, ValidFrame;
    var q, num := QuantiseBaselines(fmt, base), from[0].num;
    Rest1(fmt, kept, from, 1);
    Rest1(fmt, kept, to, 0);
    var tail := Emit(fmt, base, from[1..], to) + end;
    var s := RemoveBytes(num) + tail;
    EmitRemove(fmt, base, from, to);
    assert Emit(fmt, base, from, to) + end == s;
    RemoveRoundTrip(num, tail);
    assert to[0..] == to;
    MergeRoundTrip(fmt, base, [], from[1..], to, end);
    QuantiseHead(fmt, from);
    ParseRemoved(fmt, q, QuantiseFrame(fmt, from), s);
    Assemble(fmt, q, kept, from, to, s, ReadHeader(end).rest);
  }
}
