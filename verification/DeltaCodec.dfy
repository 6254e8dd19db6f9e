/**
 * The delta codec over message buffers: SV_WriteDelta and ParseEntityDelta, and the baseline records
 * of WriteEntityState and ParseEntityState.  The optional fields of a record are handled in the order
 * of the table `ORDER`.
 */
module DeltaCodec {
  import opened Msg
  import opened Delta

  // ---------- Writing ----------

  method WriteCoord(msg: NetMsg, fmt: Format, c: real)
    requires msg.Valid()
    modifies msg`cursize, msg.data
    ensures msg.Valid() && msg.Contents() == Clip(old(msg.Contents()) + CoordBytes(fmt, c), msg.maxsize)
  {
    if fmt.floatCoords {
      msg.WriteLong(fmt.floatBits(c));
    } else {
      msg.WriteShort(Trunc(c * 8.0) % 0x1_0000);
    }
  }

  method WriteAngle(msg: NetMsg, fmt: Format, a: real)
    requires msg.Valid()
    modifies msg`cursize, msg.data
    ensures msg.Valid() && msg.Contents() == Clip(old(msg.Contents()) + AngleBytes(fmt, a), msg.maxsize)
  {
    if fmt.floatCoords {
      msg.WriteShort(Trunc(a / 360.0 * 65536.0) % 0x1_0000);
    } else {
      msg.WriteByte(Trunc(a / 360.0 * 256.0 + 0.49) % 0x100);
    }
  }

  method WriteField(msg: NetMsg, fmt: Format, field: Field, f: Flags, to: Entity)
    requires msg.Valid()
    modifies msg`cursize, msg.data
    ensures msg.Valid()
    ensures msg.Contents() == Clip(old(msg.Contents()) + FieldBytes(fmt, field, f, to), msg.maxsize)
  {
    hide CoordBytes, AngleBytes, Short;
    match field {
      case Model =>
        if f.low.model {
          msg.WriteByte(to.modelindex % 0x100);
        } else {
          msg.WriteShort(to.modelindex);
        }
      case Frame => msg.WriteByte(to.frame);
      case Colormap => msg.WriteByte(to.colormap);
      case Skin => msg.WriteByte(to.skinnum);
      case EffectsLow => msg.WriteByte(to.effects % 0x100);
      case Origin0 => WriteCoord(msg, fmt, to.origin0);
      case Angle0 => WriteAngle(msg, fmt, to.angles0);
      case Origin1 => WriteCoord(msg, fmt, to.origin1);
      case Angle1 => WriteAngle(msg, fmt, to.angles1);
      case Origin2 => WriteCoord(msg, fmt, to.origin2);
      case Angle2 => WriteAngle(msg, fmt, to.angles2);
      case Scale => msg.WriteByte(to.scale);
      case Alpha => msg.WriteByte(to.alpha);
      case Ignored(_) => assert msg.Contents() + [] == msg.Contents();
      case EffectsHigh => msg.WriteByte(to.effects / 0x100);
    }
  }

  method WriteHeader(msg: NetMsg, num: nat, f: Flags)
    requires msg.Valid()
    modifies msg`cursize, msg.data
    ensures msg.Valid() && msg.Contents() == Clip(old(msg.Contents()) + HeaderBytes(num, f), msg.maxsize)
  {
    hide Clip, PackByte;
    ghost var was := msg.Contents();
    var high := PackByte([num / 0x100 % 2 == 1] + f.mid.List());
    ghost var sent := Short(num % 0x100 + 0x100 * high as nat);
    assert sent == [num % 0x100, high];
    msg.WriteShort(num % 0x100 + 0x100 * high as nat);
    if f.mid.moreBits {
      WriteFlagByte(msg, f.low.List(), was, sent);
      sent := sent + [PackByte(f.low.List())];
    }
    if f.low.evenMore {
      WriteFlagByte(msg, f.ext.List(), was, sent);
      sent := sent + [PackByte(f.ext.List())];
    }
    if f.ext.yetMore {
      WriteFlagByte(msg, f.far.List(), was, sent);
      sent := sent + [PackByte(f.far.List())];
    }
    assert sent == HeaderBytes(num, f);
  }

  method WriteFlagByte(msg: NetMsg, bits: seq<bool>, ghost was: seq<Byte>, ghost sent: seq<Byte>)
    requires |bits| == 8 && msg.Valid() && msg.Contents() == Clip(was + sent, msg.maxsize)
    modifies msg`cursize, msg.data
    ensures msg.Valid() && msg.Contents() == Clip(was + (sent + [PackByte(bits)]), msg.maxsize)
  {
    msg.WriteByte(PackByte(bits));
    ClipJoin(was, sent, [PackByte(bits)], msg.maxsize);
  }

  method WriteRecordFields(msg: NetMsg, fmt: Format, f: Flags, to: Entity)
    requires msg.Valid()
    modifies msg`cursize, msg.data
    ensures msg.Valid()
    ensures msg.Contents() == Clip(old(msg.Contents()) + WriteFields(fmt, ORDER, f, to), msg.maxsize)
  {
    hide FieldBytes, ORDER, Present;
    ghost var was := msg.Contents();
    assert ORDER[..0] == [] && was + [] == was;
    for k := 0 to |ORDER|
      invariant msg.Valid()
      invariant msg.Contents() == Clip(was + WriteFields(fmt, ORDER[..k], f, to), msg.maxsize)
    {
      WriteFieldsNext(fmt, k, f, to, was);
      if Present(ORDER[k], f) {
        WriteField(msg, fmt, ORDER[k], f, to);
        ClipAppend(was + WriteFields(fmt, ORDER[..k], f, to), FieldBytes(fmt, ORDER[k], f, to), msg.maxsize);
      }
    }
    assert ORDER[..|ORDER|] == ORDER;
  }

  lemma WriteFieldsNext(fmt: Format, k: nat, f: Flags, to: Entity, head: seq<Byte>)
    requires k < |ORDER|
    ensures head + WriteFields(fmt, ORDER[..k + 1], f, to)
            == (head + WriteFields(fmt, ORDER[..k], f, to)) + Piece(fmt, ORDER[k], f, to)
  {
    hide ORDER, Piece;
    assert ORDER[..k] + [ORDER[k]] == ORDER[..k + 1];
    WriteFieldsAppend(fmt, ORDER[..k], ORDER[k], f, to);
  }

  /** SV_WriteDelta: the record is appended as far as it fits. */
  method WriteDelta(msg: NetMsg, fmt: Format, num: nat, from: Entity, to: Entity, force: bool)
    requires msg.Valid()
    modifies msg`cursize, msg.data
    ensures msg.Valid()
    ensures msg.Contents() == Clip(old(msg.Contents()) + DeltaBytes(fmt, num, from, to, force), msg.maxsize)
  {
    hide DeltaFlags, WriteFields, HeaderBytes, AnyFlag, Clip, ORDER;
    var f := DeltaFlags(from, to);
    ghost var was := msg.Contents();
    if !AnyFlag(f) && !force {
      assert was + [] == was == Clip(was, msg.maxsize);
      return;
    }
    WriteHeader(msg, num, f);
    WriteRecordFields(msg, fmt, f, to);
    ClipJoin(was, HeaderBytes(num, f), WriteFields(fmt, ORDER, f, to), msg.maxsize);
  }

  // ---------- Reading ----------

  method ReadCoord(msg: NetMsg, fmt: Format) returns (c: real)
    requires msg.Valid()
    modifies msg`readpos
    ensures c == CoordValue(fmt, old(msg.Unread())) && msg.Unread() == CoordRest(fmt, old(msg.Unread()))
  {
    if fmt.floatCoords {
      var n := msg.ReadLong();
      c := fmt.floatValue(n);
    } else {
      var n := msg.ReadShort();
      c := Signed(n) as real / 8.0;
    }
  }

  method ReadAngle(msg: NetMsg, fmt: Format) returns (a: real)
    requires msg.Valid()
    modifies msg`readpos
    ensures a == AngleValue(fmt, old(msg.Unread())) && msg.Unread() == AngleRest(fmt, old(msg.Unread()))
  {
    if fmt.floatCoords {
      var n := msg.ReadShort();
      a := n as real * 360.0 / 65536.0;
    } else {
      var b := msg.ReadByte();
      a := b as real * 360.0 / 256.0;
    }
  }

  method SkipBytes(msg: NetMsg, n: nat)
    requires msg.Valid()
    modifies msg`readpos
    ensures msg.Unread() == Skip(old(msg.Unread()), n)
  {
    for i := 0 to n
      invariant Skip(msg.Unread(), n - i) == Skip(old(msg.Unread()), n)
    {
      var _ := msg.ReadByte();
    }
  }

  method GetField(msg: NetMsg, fmt: Format, field: Field, f: Flags, base: Entity) returns (e: Entity)
    requires msg.Valid()
    modifies msg`readpos
    ensures (e, msg.Unread()) == ReadField(fmt, field, f, base, old(msg.Unread()))
  {
    hide CoordValue, AngleValue, CoordRest, AngleRest, GetShort, RestShort;
    e := base;
    match field {
      case Model =>
        if f.low.model {
          var b := msg.ReadByte();
          e := e.(modelindex := if f.ext.modelDbl then (b as int) + 0x100 else b);
        } else {
          var n := msg.ReadShort();
          assert n < 0x1_0000;
          e := e.(modelindex := n);
        }
      case Frame => var b := msg.ReadByte(); e := e.(frame := b);
      case Colormap => var b := msg.ReadByte(); e := e.(colormap := b);
      case Skin => var b := msg.ReadByte(); e := e.(skinnum := b);
      case EffectsLow => var b := msg.ReadByte(); e := e.(effects := e.effects / 0x100 * 0x100 + b);
      case Origin0 => var c := ReadCoord(msg, fmt); e := e.(origin0 := c);
      case Angle0 => var a := ReadAngle(msg, fmt); e := e.(angles0 := a);
      case Origin1 => var c := ReadCoord(msg, fmt); e := e.(origin1 := c);
      case Angle1 => var a := ReadAngle(msg, fmt); e := e.(angles1 := a);
      case Origin2 => var c := ReadCoord(msg, fmt); e := e.(origin2 := c);
      case Angle2 => var a := ReadAngle(msg, fmt); e := e.(angles2 := a);
      case Scale => var b := msg.ReadByte(); e := e.(scale := b);
      case Alpha => var b := msg.ReadByte(); e := e.(alpha := b);
      case Ignored(i) => SkipBytes(msg, IgnoredSize(i));
      case EffectsHigh => var b := msg.ReadByte(); e := e.(effects := e.effects % 0x100 + 0x100 * (b as int));
    }
  }

  /** ParseEntityDelta, without the visibility list of the entity. */
  method ParseDelta(msg: NetMsg, fmt: Format, f: Flags, base: Entity) returns (e: Entity)
    requires msg.Valid()
    modifies msg`readpos
    ensures (e, msg.Unread()) == ReadDelta(fmt, f, base, old(msg.Unread()))
  {
    hide ReadField;
    e := base;
    assert ORDER[0..] == ORDER;
    for k := 0 to |ORDER|
      invariant ReadFields(fmt, ORDER[k..], f, e, msg.Unread()) == ReadDelta(fmt, f, base, old(msg.Unread()))
    {
      assert ORDER[k..][0] == ORDER[k] && ORDER[k..][1..] == ORDER[k + 1..];
      if Present(ORDER[k], f) {
        e := GetField(msg, fmt, ORDER[k], f, e);
      }
    }
  }

  method ParseExtensions(msg: NetMsg, mid: MidFlags) returns (f: Flags)
    requires msg.Valid()
    modifies msg`readpos
    ensures (f, msg.Unread()) == ReadExtensions(mid, old(msg.Unread()))
  {
    hide LowOf, ExtOf, FarOf;
    var low, ext, far := NO_LOW, NO_EXT, NO_FAR;
    if mid.moreBits {
      var b := msg.ReadByte();
      low := LowOf(b);
      if low.evenMore {
        b := msg.ReadByte();
        ext := ExtOf(b);
      }
      if ext.yetMore {
        b := msg.ReadByte();
        far := FarOf(b);
      }
    }
    f := Flags(low, mid, ext, far);
  }

  /** readentitynum. */
  method ParseHeader(msg: NetMsg) returns (num: nat, f: Flags)
    requires msg.Valid()
    modifies msg`readpos
    ensures Header(num, f, msg.Unread()) == ReadHeader(old(msg.Unread()))
  {
    hide MidOf, ReadExtensions;
    var b1 := msg.ReadByte();
    var b2 := msg.ReadByte();
    var (high, mid) := MidOf(b2);
    if b1 == 0 && b2 == 0 {
      return 0, Flags(NO_LOW, mid, NO_EXT, NO_FAR);
    }
    f := ParseExtensions(msg, mid);
    num := EntityNumber(b1, high, f.ext);
  }

  // ---------- Baselines ----------

  function AxisBytes(fmt: Format, c: real, a: real): seq<Byte> {
    CoordBytes(fmt, c) + AngleBytes(fmt, a)
  }

  /** WriteEntityState: one byte of model index, and no effects, alpha or scale. */
  function BaselineBytes(fmt: Format, e: Entity): seq<Byte> {
    [e.modelindex % 0x100, e.frame, e.colormap, e.skinnum]
    + AxisBytes(fmt, e.origin0, e.angles0) + AxisBytes(fmt, e.origin1, e.angles1)
    + AxisBytes(fmt, e.origin2, e.angles2)
  }

  method WriteAxis(msg: NetMsg, fmt: Format, c: real, a: real, ghost was: seq<Byte>, ghost sent: seq<Byte>)
    requires msg.Valid() && msg.Contents() == Clip(was + sent, msg.maxsize)
    modifies msg`cursize, msg.data
    ensures msg.Valid() && msg.Contents() == Clip(was + (sent + AxisBytes(fmt, c, a)), msg.maxsize)
  {
    hide CoordBytes, AngleBytes, Clip;
    WriteCoord(msg, fmt, c);
    ClipJoin(was, sent, CoordBytes(fmt, c), msg.maxsize);
    WriteAngle(msg, fmt, a);
    ClipJoin(was, sent + CoordBytes(fmt, c), AngleBytes(fmt, a), msg.maxsize);
    assert sent + CoordBytes(fmt, c) + AngleBytes(fmt, a) == sent + AxisBytes(fmt, c, a);
  }

  /** WriteEntityState: the record is appended as far as it fits. */
  method WriteEntityState(msg: NetMsg, fmt: Format, e: Entity)
    requires msg.Valid()
    modifies msg`cursize, msg.data
    ensures msg.Valid() && msg.Contents() == Clip(old(msg.Contents()) + BaselineBytes(fmt, e), msg.maxsize)
  {
    hide AxisBytes, Clip;
    ghost var was := msg.Contents();
    ghost var sent := [e.modelindex % 0x100];
    msg.WriteByte(e.modelindex % 0x100);
    msg.WriteByte(e.frame);
    ClipJoin(was, sent, [e.frame], msg.maxsize);
    msg.WriteByte(e.colormap);
    ClipJoin(was, sent + [e.frame], [e.colormap], msg.maxsize);
    msg.WriteByte(e.skinnum);
    ClipJoin(was, sent + [e.frame] + [e.colormap], [e.skinnum], msg.maxsize);
    sent := [e.modelindex % 0x100] + [e.frame] + [e.colormap] + [e.skinnum];
    WriteAxis(msg, fmt, e.origin0, e.angles0, was, sent);
    sent := sent + AxisBytes(fmt, e.origin0, e.angles0);
    WriteAxis(msg, fmt, e.origin1, e.angles1, was, sent);
    sent := sent + AxisBytes(fmt, e.origin1, e.angles1);
    WriteAxis(msg, fmt, e.origin2, e.angles2, was, sent);
    assert sent + AxisBytes(fmt, e.origin2, e.angles2) == BaselineBytes(fmt, e);
  }

  /** ParseEntityState into a cleared state. */
  function ReadBaseline(fmt: Format, s: seq<Byte>): (Entity, seq<Byte>) {
    var s0 := Skip(s, 4);
    var s1 := AngleRest(fmt, CoordRest(fmt, s0));
    var s2 := AngleRest(fmt, CoordRest(fmt, s1));
    (Entity(First(Rest(s)), First(s), First(Skip(s, 2)), First(Skip(s, 3)),
            CoordValue(fmt, s0), CoordValue(fmt, s1), CoordValue(fmt, s2),
            AngleValue(fmt, CoordRest(fmt, s0)), AngleValue(fmt, CoordRest(fmt, s1)),
            AngleValue(fmt, CoordRest(fmt, s2)), 0, 0, 0),
     AngleRest(fmt, CoordRest(fmt, s2)))
  }

  /**
   * A baseline arrives as its quantised value if and only if its model index fits a byte and it
   * carries no effects, alpha or scale.
   */
  lemma BaselineRoundTrip(fmt: Format, e: Entity, rest: seq<Byte>)
    ensures var (b, tail) := ReadBaseline(fmt, BaselineBytes(fmt, e) + rest);
            && tail == rest
            && (b == Quantise(fmt, e)
                <==> e.modelindex < 0x100 && e.effects == 0 && e.alpha == 0 && e.scale == 0)
  {
    hide CoordBytes, CoordValue, CoordRest, AngleBytes, AngleValue, AngleRest, QCoord, QAngle;
    var t2 := AxisBytes(fmt, e.origin2, e.angles2) + rest;
    var t1 := AxisBytes(fmt, e.origin1, e.angles1) + t2;
    var t0 := AxisBytes(fmt, e.origin0, e.angles0) + t1;
    var s := BaselineBytes(fmt, e) + rest;
    assert s == [e.modelindex % 0x100] + ([e.frame] + ([e.colormap] + ([e.skinnum] + t0)));
    FourFront(e.modelindex % 0x100, e.frame, e.colormap, e.skinnum, t0);
    AxisRoundTrip(fmt, e.origin0, e.angles0, t1);
    AxisRoundTrip(fmt, e.origin1, e.angles1, t2);
    AxisRoundTrip(fmt, e.origin2, e.angles2, rest);
  }

  lemma FourFront(a: Byte, b: Byte, c: Byte, d: Byte, t: seq<Byte>)
    ensures var s := [a] + ([b] + ([c] + ([d] + t)));
            && First(s) == a && First(Rest(s)) == b && First(Skip(s, 2)) == c && First(Skip(s, 3)) == d
            && Skip(s, 4) == t
  {
    var s := [a] + ([b] + ([c] + ([d] + t)));
    assert Rest(s) == [b] + ([c] + ([d] + t));
    assert Rest(Rest(s)) == [c] + ([d] + t);
    assert Rest(Rest(Rest(s))) == [d] + t;
    assert Rest(Rest(Rest(Rest(s)))) == t;
    assert Skip(s, 2) == Skip(Rest(s), 1) == Skip(Rest(Rest(s)), 0);
    assert Skip(s, 3) == Skip(Rest(s), 2) == Skip(Rest(Rest(s)), 1) == Skip(Rest(Rest(Rest(s))), 0);
    assert Skip(s, 4) == Skip(Rest(s), 3) == Skip(Rest(Rest(s)), 2) == Skip(Rest(Rest(Rest(s))), 1)
           == Skip(Rest(Rest(Rest(Rest(s)))), 0);
  }

  lemma AxisRoundTrip(fmt: Format, c: real, a: real, rest: seq<Byte>)
    ensures var s := AxisBytes(fmt, c, a) + rest;
            && CoordValue(fmt, s) == QCoord(fmt, c) && AngleValue(fmt, CoordRest(fmt, s)) == QAngle(fmt, a)
            && AngleRest(fmt, CoordRest(fmt, s)) == rest
  {
    hide CoordBytes, CoordValue, CoordRest, AngleBytes, AngleValue, AngleRest, QCoord, QAngle;
    assert AxisBytes(fmt, c, a) + rest == CoordBytes(fmt, c) + (AngleBytes(fmt, a) + rest);
    CoordRoundTrip(fmt, c, AngleBytes(fmt, a) + rest);
    AngleRoundTrip(fmt, a, rest);
  }
}
