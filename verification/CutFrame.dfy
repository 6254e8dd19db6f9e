/**
 * What a reader makes of a frame whose end was cut (fteqtv/msg.c, fteqtv/parse.c): reads beyond the end of a
 * message yield zeros, so the frame survives exactly if every byte that was cut is a zero.
 */
module CutFrame {
  import opened Msg
  import opened Delta
  import opened DeltaCodec
  import opened PacketEntities

  predicate ZerosFrom(s: seq<Byte>, n: nat) {
    forall i :: n <= i < |s| ==> s[i] == 0
  }

  /** Two messages that read alike, as they differ in zeros at the end only. */
  predicate Alike(s: seq<Byte>, t: seq<Byte>)
    decreases |s| + |t|
  {
    (s == [] && t == []) || (First(s) == First(t) && Alike(Rest(s), Rest(t)))
  }

  lemma {:induction false} PrefixAlike(s: seq<Byte>, t: seq<Byte>)
    requires s <= t && ZerosFrom(t, |s|)
    ensures Alike(s, t)
    decreases |t|
  {
    if t != [] {
      assert s != [] ==> s[0] == t[0];
      PrefixAlike(Rest(s), Rest(t));
    }
  }

  // ---------- Readers of messages that read alike ----------

  lemma AlikeNext(s: seq<Byte>, t: seq<Byte>)
    requires Alike(s, t)
    ensures First(s) == First(t) && Alike(Rest(s), Rest(t))
  {
  }

  lemma AlikeShort(s: seq<Byte>, t: seq<Byte>)
    requires Alike(s, t)
    ensures GetShort(s) == GetShort(t) && Alike(RestShort(s), RestShort(t))
  {
    hide Alike;
    AlikeNext(s, t);
    AlikeNext(Rest(s), Rest(t));
  }

  lemma AlikeLong(s: seq<Byte>, t: seq<Byte>)
    requires Alike(s, t)
    ensures GetLong(s) == GetLong(t) && Alike(RestLong(s), RestLong(t))
  {
    hide Alike, GetShort, RestShort;
    AlikeShort(s, t);
    AlikeShort(RestShort(s), RestShort(t));
  }

  lemma AlikeCoord(fmt: Format, s: seq<Byte>, t: seq<Byte>)
    requires Alike(s, t)
    ensures CoordValue(fmt, s) == CoordValue(fmt, t) && Alike(CoordRest(fmt, s), CoordRest(fmt, t))
  {
    hide Alike, GetShort, RestShort, GetLong, RestLong;
    AlikeShort(s, t);
    AlikeLong(s, t);
  }

  lemma AlikeAngle(fmt: Format, s: seq<Byte>, t: seq<Byte>)
    requires Alike(s, t)
    ensures AngleValue(fmt, s) == AngleValue(fmt, t) && Alike(AngleRest(fmt, s), AngleRest(fmt, t))
  {
    hide Alike, GetShort, RestShort;
    AlikeNext(s, t);
    AlikeShort(s, t);
  }

  lemma {:induction false} AlikeSkip(s: seq<Byte>, t: seq<Byte>, n: nat)
    requires Alike(s, t)
    ensures Alike(Skip(s, n), Skip(t, n))
    decreases n
  {
    if n > 0 {
      hide Alike;
      AlikeNext(s, t);
      AlikeSkip(Rest(s), Rest(t), n - 1);
    }
  }

  lemma AlikeField(fmt: Format, field: Field, f: Flags, e: Entity, s: seq<Byte>, t: seq<Byte>)
    requires Alike(s, t)
    ensures ReadField(fmt, field, f, e, s).0 == ReadField(fmt, field, f, e, t).0
    ensures Alike(ReadField(fmt, field, f, e, s).1, ReadField(fmt, field, f, e, t).1)
  {
    hide Alike, GetShort, RestShort, CoordValue, CoordRest, AngleValue, AngleRest, Skip;
    AlikeNext(s, t);
    AlikeShort(s, t);
    AlikeCoord(fmt, s, t);
    AlikeAngle(fmt, s, t);
    if field.Ignored? {
      AlikeSkip(s, t, IgnoredSize(field.flag));
    }
  }

  lemma {:induction false} AlikeFields(fmt: Format, fields: seq<Field>, f: Flags, e: Entity, s: seq<Byte>, t: seq<Byte>)
    requires Alike(s, t)
    ensures ReadFields(fmt, fields, f, e, s).0 == ReadFields(fmt, fields, f, e, t).0
    ensures Alike(ReadFields(fmt, fields, f, e, s).1, ReadFields(fmt, fields, f, e, t).1)
    decreases |fields|
  {
    hide Alike, ReadField, Present;
    if fields != [] {
      if Present(fields[0], f) {
        AlikeField(fmt, fields[0], f, e, s, t);
        var e' := ReadField(fmt, fields[0], f, e, s).0;
        AlikeFields(fmt, fields[1..], f, e', ReadField(fmt, fields[0], f, e, s).1,
                    ReadField(fmt, fields[0], f, e, t).1);
      } else {
        AlikeFields(fmt, fields[1..], f, e, s, t);
      }
    }
  }

  lemma AlikeExtensions(mid: MidFlags, s: seq<Byte>, t: seq<Byte>)
    requires Alike(s, t)
    ensures ReadExtensions(mid, s).0 == ReadExtensions(mid, t).0
    ensures Alike(ReadExtensions(mid, s).1, ReadExtensions(mid, t).1)
  {
    hide Alike, LowOf, ExtOf, FarOf;
    AlikeNext(s, t);
    AlikeNext(Rest(s), Rest(t));
    AlikeNext(Rest(Rest(s)), Rest(Rest(t)));
  }

  lemma AlikeHeader(s: seq<Byte>, t: seq<Byte>)
    requires Alike(s, t)
    ensures ReadHeader(s).num == ReadHeader(t).num && ReadHeader(s).flags == ReadHeader(t).flags
    ensures Alike(ReadHeader(s).rest, ReadHeader(t).rest)
  {
    hide Alike, MidOf, ReadExtensions;
    AlikeNext(s, t);
    AlikeNext(Rest(s), Rest(t));
    AlikeExtensions(MidOf(First(Rest(s))).1, RestShort(s), RestShort(t));
  }

  lemma {:induction false} AlikeEnts(fmt: Format, base: Baselines, prev: Frame, s: seq<Byte>, t: seq<Byte>)
    requires Alike(s, t)
    ensures ParseEnts(fmt, base, prev, s).0 == ParseEnts(fmt, base, prev, t).0
    decreases |s| + |t| + |prev|
  {
    hide Alike, ReadHeader, ReadDelta, Baseline;
    var h, g := ReadHeader(s), ReadHeader(t);
    AlikeHeader(s, t);
    var oldnum := NextNum(prev, 0xffff);
    if h.num == 0 {
    } else if h.num > oldnum && prev != [] {
      AlikeEnts(fmt, base, prev[1..], s, t);
    } else {
      var rest := if h.num == oldnum && prev != [] then prev[1..] else prev;
      var e := if h.num == oldnum && prev != [] then prev[0].state else Baseline(base, h.num);
      if h.flags.mid.remove {
        AlikeEnts(fmt, base, rest, h.rest, g.rest);
      } else {
        AlikeDelta(fmt, h.flags, e, h.rest, g.rest);
        AlikeEnts(fmt, base, rest, ReadDelta(fmt, h.flags, e, h.rest).1, ReadDelta(fmt, h.flags, e, g.rest).1);
      }
    }
  }

  lemma AlikeDelta(fmt: Format, f: Flags, e: Entity, s: seq<Byte>, t: seq<Byte>)
    requires Alike(s, t)
    ensures ReadDelta(fmt, f, e, s).0 == ReadDelta(fmt, f, e, t).0
    ensures Alike(ReadDelta(fmt, f, e, s).1, ReadDelta(fmt, f, e, t).1)
  {
    hide Alike, ORDER, ReadFields;
    AlikeFields(fmt, ORDER, f, e, s, t);
  }

  // ---------- A field that is cut ----------

  /** The bits of a number are the smallest that stand for it, as they are for numbers that are finite. */
  ghost predicate LeastBits(fmt: Format) {
    fmt.floatCoords ==>
      forall c: real, bits: nat :: bits < fmt.floatBits(c) % 0x1_0000_0000 ==>
        fmt.floatValue(bits) != fmt.floatValue(fmt.floatBits(c) % 0x1_0000_0000)
  }

  lemma ShortCut(n: nat, s: seq<Byte>)
    requires s <= Short(n) && !ZerosFrom(Short(n), |s|)
    ensures GetShort(s) < n % 0x1_0000
  {
    if s == [] {
      assert GetShort(s) == 0;
    } else {
      assert s == [n % 0x100] || s == Short(n);
      assert n / 0x100 % 0x100 > 0 && GetShort(s) == n % 0x100;
    }
  }

  lemma LongCut(n: nat, s: seq<Byte>)
    requires s <= Long(n) && !ZerosFrom(Long(n), |s|)
    ensures GetLong(s) < n % 0x1_0000_0000
  {
    hide Short, GetShort, RestShort;
    var low, high := Short(n), Short(n / 0x1_0000);
    if |s| >= 2 {
      var t := s[2..];
      assert s == low + t && t <= high;
      ShortRoundTrip(n, t);
      assert forall i :: |t| <= i < |high| ==> Long(n)[i + 2] == high[i];
      ShortCut(n / 0x1_0000, t);
    } else {
      assert s <= low;
      OneByteRest(s);
      if !ZerosFrom(low, |s|) {
        ShortCut(n, s);
      } else {
        PrefixAlike(s, low);
        AlikeShort(s, low);
        assert low + [] == low;
        ShortRoundTrip(n, []);
        assert forall i :: 0 <= i < |high| ==> Long(n)[i + 2] == high[i];
        ShortCut(n / 0x1_0000, []);
      }
    }
  }

  lemma OneByteRest(s: seq<Byte>)
    requires |s| < 2
    ensures RestShort(s) == [] && GetShort([]) == 0
  {
  }

  lemma CoordCut(fmt: Format, c: real, s: seq<Byte>)
    requires s <= CoordBytes(fmt, c) && !ZerosFrom(CoordBytes(fmt, c), |s|) && LeastBits(fmt)
    ensures CoordValue(fmt, s) != QCoord(fmt, c)
  {
    hide Short, Long, GetShort, GetLong;
    if fmt.floatCoords {
      LongCut(fmt.floatBits(c), s);
      assert Long(fmt.floatBits(c)) + [] == Long(fmt.floatBits(c));
      LongRoundTrip(fmt.floatBits(c), []);
    } else {
      var n := Trunc(c * 8.0) % 0x1_0000;
      ShortCut(n, s);
      assert Short(n) + [] == Short(n);
      ShortRoundTrip(n, []);
    }
  }

  lemma AngleCut(fmt: Format, a: real, s: seq<Byte>)
    requires s <= AngleBytes(fmt, a) && !ZerosFrom(AngleBytes(fmt, a), |s|)
    ensures AngleValue(fmt, s) != QAngle(fmt, a)
  {
    hide Short, GetShort;
    if fmt.floatCoords {
      var n := Trunc(a / 360.0 * 65536.0) % 0x1_0000;
      ShortCut(n, s);
      assert Short(n) + [] == Short(n);
      ShortRoundTrip(n, []);
    }
  }

  /** A field of which a byte that is not zero is cut is wrong. */
  lemma FieldCut(fmt: Format, field: Field, f: Flags, e: Entity, to: Entity, s: seq<Byte>)
    requires !field.Ignored? && (field.Model? ==> ModelWidth(f, to)) && LeastBits(fmt)
    requires s <= FieldBytes(fmt, field, f, to) && !ZerosFrom(FieldBytes(fmt, field, f, to), |s|)
    ensures !Same(field, ReadField(fmt, field, f, e, s).0, Quantise(fmt, to))
  {
    hide CoordBytes, CoordValue, CoordRest, AngleBytes, AngleValue, AngleRest, QCoord, QAngle, LeastBits, Short,
         GetShort;
    match field
    case Model =>
      if !f.low.model {
        ShortCut(to.modelindex, s);
      }
    case Origin0 => CoordCut(fmt, to.origin0, s);
    case Origin1 => CoordCut(fmt, to.origin1, s);
    case Origin2 => CoordCut(fmt, to.origin2, s);
    case Angle0 => AngleCut(fmt, to.angles0, s);
    case Angle1 => AngleCut(fmt, to.angles1, s);
    case Angle2 => AngleCut(fmt, to.angles2, s);
    case Ignored(_) =>
    case Frame | Colormap | Skin | EffectsLow | Scale | Alpha | EffectsHigh =>
      assert s == [];
  }

  lemma SameIsEquality(g: Field, a: Entity, b: Entity, c: Entity)
    ensures Same(g, a, b) ==> Same(g, b, a)
    ensures Same(g, a, b) && Same(g, b, c) ==> Same(g, a, c)
  {
  }

  lemma FieldKeeps(fmt: Format, field: Field, f: Flags, e: Entity, s: seq<Byte>, g: Field)
    requires g != field
    ensures Same(g, e, ReadField(fmt, field, f, e, s).0)
  {
    hide CoordValue, AngleValue, GetShort;
  }

  /** A field that is not read, or not announced, is left alone. */
  lemma {:induction false} FieldsKeep(fmt: Format, fields: seq<Field>, f: Flags, e: Entity, s: seq<Byte>, g: Field)
    requires g in fields ==> !Present(g, f)
    ensures Same(g, e, ReadFields(fmt, fields, f, e, s).0)
    decreases |fields|
  {
    hide ReadField, Present, Same;
    if fields == [] {
      SameSelf(g, e);
    } else if Present(fields[0], f) {
      var (e', s') := ReadField(fmt, fields[0], f, e, s);
      FieldKeeps(fmt, fields[0], f, e, s, g);
      FieldsKeep(fmt, fields[1..], f, e', s', g);
      SameIsEquality(g, e, e', ReadFields(fmt, fields[1..], f, e', s').0);
    } else {
      FieldsKeep(fmt, fields[1..], f, e, s, g);
    }
  }

  lemma SameSelf(g: Field, e: Entity)
    ensures Same(g, e, e)
  {
  }

  // ---------- The fields of a record ----------

  lemma CutJoin(a: seq<Byte>, b: seq<Byte>, s: seq<Byte>)
    requires s <= a + b && !ZerosFrom(a + b, |s|)
    ensures |s| >= |a| ==> s == a + s[|a|..] && s[|a|..] <= b && !ZerosFrom(b, |s| - |a|)
    ensures |s| < |a| ==> s <= a && (ZerosFrom(a, |s|) ==> !ZerosFrom(b, 0))
  {
    var i :| |s| <= i < |a + b| && (a + b)[i] != 0;
    if i < |a| {
      assert a[i] != 0;
    } else {
      assert b[i - |a|] != 0;
    }
  }

  lemma {:induction false} FieldsCut(fmt: Format, k: nat, from: Entity, to: Entity, e: Entity, s: seq<Byte>)
    requires k <= |ORDER| && LeastBits(fmt)
    requires forall i :: 0 <= i < k ==> Same(ORDER[i], e, Quantise(fmt, to))
    requires forall i :: k <= i < |ORDER| ==> Same(ORDER[i], e, Quantise(fmt, from))
    requires var bytes := WriteFields(fmt, ORDER[k..], DeltaFlags(from, to), to);
             s <= bytes && !ZerosFrom(bytes, |s|)
    ensures ReadFields(fmt, ORDER[k..], DeltaFlags(from, to), e, s).0 != Quantise(fmt, to)
    decreases |ORDER| - k
  {
    hide ReadField, FieldBytes, Present, Same, DeltaFlags, Quantise, ORDER, LeastBits, Alike;
    hide ZerosFrom;
    var f := DeltaFlags(from, to);
    if k < |ORDER| {
      assert ORDER[k..][1..] == ORDER[k + 1..];
      var field := ORDER[k];
      var tail := WriteFields(fmt, ORDER[k + 1..], f, to);
      if !Present(field, f) {
        assert WriteFields(fmt, ORDER[k..], f, to) == tail;
        FieldStep(fmt, k, from, to, e, s);
        FieldsCut(fmt, k + 1, from, to, e, s);
      } else {
        var own := FieldBytes(fmt, field, f, to);
        CutJoin(own, tail, s);
        if |s| >= |own| {
          FieldStep(fmt, k, from, to, e, s[|own|..]);
          FieldsCut(fmt, k + 1, from, to, ReadField(fmt, field, f, e, s).0, s[|own|..]);
        } else if ZerosFrom(own, |s|) {
          FieldEndsInZeros(fmt, k, from, to, e, s);
          FieldsCut(fmt, k + 1, from, to, ReadField(fmt, field, f, e, s).0, []);
        } else {
          FieldLost(fmt, k, from, to, e, s);
        }
      }
    } else {
      NoBytes(fmt, f, to);
    }
  }

  lemma NoBytes(fmt: Format, f: Flags, to: Entity)
    ensures ZerosFrom(WriteFields(fmt, ORDER[|ORDER|..], f, to), 0)
  {
  }

  /** A field of which only zeros are cut is read right. */
  lemma FieldEndsInZeros(fmt: Format, k: nat, from: Entity, to: Entity, e: Entity, s: seq<Byte>)
    requires k < |ORDER| && Present(ORDER[k], DeltaFlags(from, to))
    requires forall i :: 0 <= i < k ==> Same(ORDER[i], e, Quantise(fmt, to))
    requires forall i :: k <= i < |ORDER| ==> Same(ORDER[i], e, Quantise(fmt, from))
    requires var own := FieldBytes(fmt, ORDER[k], DeltaFlags(from, to), to); s <= own && ZerosFrom(own, |s|)
    ensures var f := DeltaFlags(from, to); var e' := ReadField(fmt, ORDER[k], f, e, s).0;
            && (forall i :: 0 <= i < k + 1 ==> Same(ORDER[i], e', Quantise(fmt, to)))
            && (forall i :: k + 1 <= i < |ORDER| ==> Same(ORDER[i], e', Quantise(fmt, from)))
            && ReadFields(fmt, ORDER[k..], f, e, s).0 == ReadFields(fmt, ORDER[k + 1..], f, e', []).0
  {
    hide ReadField, FieldBytes, Present, Same, DeltaFlags, Quantise, ORDER, Alike, ZerosFrom;
    var f, field := DeltaFlags(from, to), ORDER[k];
    var own := FieldBytes(fmt, field, f, to);
    assert own + [] == own;
    FieldStep(fmt, k, from, to, e, []);
    PrefixAlike(s, own);
    AlikeField(fmt, field, f, e, s, own);
    assert ORDER[k..][1..] == ORDER[k + 1..];
    AlikeFields(fmt, ORDER[k + 1..], f, ReadField(fmt, field, f, e, s).0, ReadField(fmt, field, f, e, s).1, []);
  }

  lemma FieldLost(fmt: Format, k: nat, from: Entity, to: Entity, e: Entity, s: seq<Byte>)
    requires k < |ORDER| && Present(ORDER[k], DeltaFlags(from, to)) && LeastBits(fmt)
    requires var own := FieldBytes(fmt, ORDER[k], DeltaFlags(from, to), to); s <= own && !ZerosFrom(own, |s|)
    ensures ReadFields(fmt, ORDER[k..], DeltaFlags(from, to), e, s).0 != Quantise(fmt, to)
  {
    hide ReadField, FieldBytes, Present, Same, DeltaFlags, Quantise, LeastBits, ZerosFrom;
    var f, field := DeltaFlags(from, to), ORDER[k];
    PresentIffDifferent(fmt, field, from, to);
    SameModel(field, from, to);
    FieldCut(fmt, field, f, e, to, s);
    var (e', s') := ReadField(fmt, field, f, e, s);
    OrderDistinct(k);
    hide ORDER;
    assert ORDER[k..][1..] == ORDER[k + 1..];
    FieldsKeep(fmt, ORDER[k + 1..], f, e', s', field);
    SameIsEquality(field, e', ReadFields(fmt, ORDER[k + 1..], f, e', s').0, Quantise(fmt, to));
    SameSelf(field, Quantise(fmt, to));
  }

  lemma SameModel(field: Field, a: Entity, b: Entity)
    ensures field.Model? && a.modelindex == b.modelindex ==> Same(field, a, b)
  {
  }

  // ---------- The header of a record ----------

  /** The flags that a header of `n` bytes leaves. */
  function Shortened(f: Flags, n: nat): Flags {
    if n <= 2 then Flags(NO_LOW, f.mid, NO_EXT, NO_FAR)
    else if n == 3 then Flags(f.low, f.mid, NO_EXT, NO_FAR)
    else Flags(f.low, f.mid, f.ext, NO_FAR)
  }

  lemma NoBitsOfZero()
    ensures LowOf(0) == NO_LOW && ExtOf(0) == NO_EXT && FarOf(0) == NO_FAR
  {
    assert Bits(0, 8) == [false] + Bits(0, 7) == [false, false, false, false, false, false, false, false];
  }

  lemma ShortExtensions(f: Flags, n: nat)
    requires SelfDescribing(f) && n < |ExtensionBytes(f)|
    ensures ReadExtensions(f.mid, ExtensionBytes(f)[..n]) == (Shortened(f, n + 2), [])
  {
    hide LowOf, ExtOf, FarOf, PackByte;
    NoBitsOfZero();
    LowRoundTrip(f.low);
    ExtRoundTrip(f.ext);
    var low, ext := PackByte(f.low.List()), PackByte(f.ext.List());
    var s := ExtensionBytes(f)[..n];
    if n == 0 {
      assert s == [];
    } else if n == 1 {
      assert s == [low];
    } else {
      assert s == [low, ext];
    }
  }

  lemma ShortHeader(num: nat, f: Flags, n: nat)
    requires 0 < num < 512 && SelfDescribing(f) && 2 <= n < |HeaderBytes(num, f)|
    ensures ReadHeader(HeaderBytes(num, f)[..n]) == Header(num, Shortened(f, n), [])
  {
    hide MidOf, PackByte, ExtensionBytes, ReadExtensions;
    var b2 := PackByte([num / 0x100 % 2 == 1] + f.mid.List());
    var s := HeaderBytes(num, f)[..n];
    MidRoundTrip(num / 0x100 % 2 == 1, f.mid);
    ShortExtensions(f, n - 2);
    assert s == [num % 0x100] + ([b2] + ExtensionBytes(f)[..n - 2]);
    assert RestShort(s) == ExtensionBytes(f)[..n - 2];
    assert First(Rest(s)) == b2;
    if b2 == 0 {
      ZeroByte([num / 0x100 % 2 == 1] + f.mid.List());
    }
  }

  ghost predicate Settled(fmt: Format, e: Entity) {
    Quantise(fmt, e) == e
  }

  lemma ExtensionCount(f: Flags)
    ensures |ExtensionBytes(f)|
            == (if f.mid.moreBits then 1 else 0) + (if f.low.evenMore then 1 else 0) + (if f.ext.yetMore then 1 else 0)
  {
    hide PackByte;
  }

  /** What is announced in the bytes that are lost. */
  lemma LostFlags(from: Entity, to: Entity, n: nat)
    requires 2 <= n < 2 + |ExtensionBytes(DeltaFlags(from, to))|
    ensures var f := DeltaFlags(from, to);
            || f.far.effects16
            || (n <= 3 && (f.ext.alpha || f.ext.scale || f.ext.modelDbl))
            || (n == 2 && (f.low.model || f.low.colormap || f.low.skin || f.low.effects || f.low.angle1
                           || f.low.angle3))
  {
    hide PackByte, ExtensionBytes;
    ExtensionCount(DeltaFlags(from, to));
  }

  /** A field that differs, and that a shortened header no longer announces. */
  lemma LostField(from: Entity, to: Entity, n: nat) returns (g: Field)
    requires 2 <= n < 2 + |ExtensionBytes(DeltaFlags(from, to))|
    ensures Present(g, DeltaFlags(from, to)) && !g.Ignored?
    ensures Present(g, Shortened(DeltaFlags(from, to), n)) ==> g.Model? && n == 3 && DeltaFlags(from, to).ext.modelDbl
  {
    hide ExtensionBytes, DeltaFlags;
    var f := DeltaFlags(from, to);
    LostFlags(from, to, n);
    FarFlagsOnly(from, to, n);
    g := if f.far.effects16 && n <= 4 then EffectsHigh
         else if f.ext.alpha && n <= 3 then Alpha
         else if f.ext.scale && n <= 3 then Scale
         else if f.ext.modelDbl || f.low.model then Model
         else if f.low.colormap then Colormap
         else if f.low.skin then Skin
         else if f.low.effects then EffectsLow
         else if f.low.angle1 then Angle0
         else Angle2;
  }

  lemma FarFlagsOnly(from: Entity, to: Entity, n: nat)
    requires 2 <= n < 2 + |ExtensionBytes(DeltaFlags(from, to))|
    ensures n <= 4
  {
    hide DeltaFlags, PackByte;
  }

  lemma DoubleModel(from: Entity, to: Entity)
    ensures DeltaFlags(from, to).ext.modelDbl ==> to.modelindex >= 0x100
  {
  }

  /** A record whose header is cut within the extension bytes. */
  lemma HeaderCut(fmt: Format, from: Entity, to: Entity, n: nat)
    requires Settled(fmt, from) && Settled(fmt, to)
    requires var f := DeltaFlags(from, to); 2 <= n < 2 + |ExtensionBytes(f)|
    ensures ReadDelta(fmt, Shortened(DeltaFlags(from, to), n), from, []).0 != to
  {
    var f := Shortened(DeltaFlags(from, to), n);
    var g := LostField(from, to, n);
    DoubleModel(from, to);
    PresentIffDifferent(fmt, g, from, to);
    assert n == 3 ==> f.ext == NO_EXT;
    hide ReadField, DeltaFlags, Shortened, Same, Settled;
    var e := ReadDelta(fmt, f, from, []).0;
    SameSelf(g, to);
    if !Present(g, f) {
      FieldsKeep(fmt, ORDER, f, from, [], g);
      SameIsEquality(g, from, e, to);
    } else {
      NothingOfModel(fmt, f, from);
    }
  }

  /** A model index of which nothing is left is read as zero. */
  lemma NothingOfModel(fmt: Format, f: Flags, e: Entity)
    requires f.low.model && f.ext == NO_EXT
    ensures ReadDelta(fmt, f, e, []).0.modelindex == 0
  {
    var e' := ReadField(fmt, Model, f, e, []).0;
    assert ORDER[0] == Model && Model !in ORDER[1..];
    hide ORDER, ReadField;
    FieldsKeep(fmt, ORDER[1..], f, e', [], Model);
  }

  // ---------- A record that is cut ----------

  /** A record of which a byte that is not zero is cut, but not its number, gives another state. */
  lemma RecordCut(fmt: Format, num: nat, from: Entity, to: Entity, force: bool, s: seq<Byte>)
    requires 0 < num < 512 && Settled(fmt, from) && Settled(fmt, to) && LeastBits(fmt)
    requires var bytes := DeltaBytes(fmt, num, from, to, force); 2 <= |s| && s <= bytes && !ZerosFrom(bytes, |s|)
    ensures var h := ReadHeader(s);
            h.num == num && !h.flags.mid.remove && ReadDelta(fmt, h.flags, from, h.rest).0 != to
  {
    hide ReadHeader, HeaderBytes, ReadFields, WriteFields, DeltaFlags, ReadDelta, Quantise, LeastBits, ZerosFrom;
    var f := DeltaFlags(from, to);
    var header, fields := HeaderBytes(num, f), WriteFields(fmt, ORDER, f, to);
    DeltaFlagsDescribed(from, to);
    CutJoin(header, fields, s);
    HeaderSize(num, f);
    if |s| >= |header| {
      var tail := s[|header|..];
      HeaderRoundTrip(num, f, tail);
      FieldsOfRecord(fmt, from, to, tail);
    } else {
      assert s == header[..|s|];
      ShortHeader(num, f, |s|);
      HeaderCut(fmt, from, to, |s|);
    }
  }

  lemma HeaderSize(num: nat, f: Flags)
    ensures |HeaderBytes(num, f)| == 2 + |ExtensionBytes(f)|
  {
  }

  lemma FieldsOfRecord(fmt: Format, from: Entity, to: Entity, s: seq<Byte>)
    requires Settled(fmt, from) && Settled(fmt, to) && LeastBits(fmt)
    requires var bytes := WriteFields(fmt, ORDER, DeltaFlags(from, to), to); s <= bytes && !ZerosFrom(bytes, |s|)
    ensures ReadDelta(fmt, DeltaFlags(from, to), from, s).0 != to
  {
    hide ORDER, ReadFields, WriteFields, DeltaFlags, Quantise, LeastBits, ZerosFrom, Same;
    assert ORDER[0..] == ORDER;
    forall i | 0 <= i < |ORDER|
      ensures Same(ORDER[i], from, Quantise(fmt, from))
    {
      SameSelf(ORDER[i], from);
    }
    FieldsCut(fmt, 0, from, to, from, s);
  }

  /** A record that announces nothing consists of its number. */
  lemma NothingAnnounced(fmt: Format, num: nat, e: Entity)
    requires 0 < num < 0x100
    ensures DeltaBytes(fmt, num, e, e, true) == [num, 0]
  {
    var f := DeltaFlags(e, e);
    assert f == Flags(NO_LOW, NO_MID, NO_EXT, NO_FAR);
    assert [false] + NO_MID.List() == [false, false, false, false, false, false, false, false];
    assert PackByte([false, false, false, false, false, false, false, false]) == 0;
    NoFields(fmt, ORDER, e);
  }

  const NO_MID := MidFlags(false, false, false, false, false, false, false)

  lemma {:induction false} NoFields(fmt: Format, fields: seq<Field>, e: Entity)
    ensures WriteFields(fmt, fields, Flags(NO_LOW, NO_MID, NO_EXT, NO_FAR), e) == []
    decreases |fields|
  {
    hide FieldBytes;
    if fields != [] {
      NoFields(fmt, fields[1..], e);
    }
  }

  lemma {:induction false} NothingRead(fmt: Format, fields: seq<Field>, e: Entity, s: seq<Byte>)
    ensures ReadFields(fmt, fields, Flags(NO_LOW, NO_MID, NO_EXT, NO_FAR), e, s) == (e, s)
    decreases |fields|
  {
    hide ReadField;
    if fields != [] {
      NothingRead(fmt, fields[1..], e, s);
    }
  }

  // ---------- A number of which one byte is left ----------

  lemma OneByteHeader(b: Byte)
    ensures ReadHeader([b]) == Header(b, Flags(NO_LOW, if b == 0 then MidOf(0).1 else NO_MID, NO_EXT, NO_FAR), [])
  {
    assert Bits(0, 8) == [false] + Bits(0, 7) == [false, false, false, false, false, false, false, false];
    assert Rest([b]) == [];
  }

  /** The frame with an entity `b` that is not changed, and that is its baseline if it is new. */
  function Insert(base: Baselines, prev: Frame, b: nat): Frame {
    if prev == [] || b < prev[0].num then [Ent(b, Baseline(base, b))] + prev
    else if b == prev[0].num then prev
    else [prev[0]] + Insert(base, prev[1..], b)
  }

  lemma {:induction false} OneByteEnts(fmt: Format, base: Baselines, prev: Frame, b: Byte)
    ensures ParseEnts(fmt, base, prev, [b]).0 == if b == 0 then prev else Insert(base, prev, b)
    decreases |prev|
  {
    hide ReadHeader, MidOf, Baseline;
    OneByteHeader(b);
    var e := if prev != [] && prev[0].num == b as nat then prev[0].state else Baseline(base, b);
    NothingRead(fmt, ORDER, e, []);
    hide ORDER, ReadFields;
    if b == 0 {
    } else if prev != [] && prev[0].num < b as nat {
      OneByteEnts(fmt, base, prev[1..], b);
    } else if prev != [] && prev[0].num == b as nat {
      NoEnts(fmt, base, prev[1..]);
    } else {
      NoEnts(fmt, base, prev);
    }
  }

  lemma NoEnts(fmt: Format, base: Baselines, prev: Frame)
    ensures ParseEnts(fmt, base, prev, []) == (prev, [])
  {
    hide MidOf, ReadExtensions;
  }

  lemma {:induction false} InsertHas(base: Baselines, prev: Frame, b: nat) returns (i: nat)
    ensures i < |Insert(base, prev, b)| && Insert(base, prev, b)[i].num == b
    decreases |prev|
  {
    hide Baseline;
    i := 0;
    if prev != [] && prev[0].num < b {
      var j := InsertHas(base, prev[1..], b);
      i := j + 1;
    }
  }

  lemma {:induction false} InsertKeeps(base: Baselines, prev: Frame, b: nat, i: nat)
    requires ValidFrame(prev) && i < |prev| && prev[i].num == b
    ensures Insert(base, prev, b) == prev
    decreases |prev|
  {
    hide Baseline;
    if i > 0 {
      ValidTail(prev, 1);
      hide ValidFrame;
      InsertKeeps(base, prev[1..], b, i - 1);
    }
  }

  lemma {:induction false} InsertAfter(base: Baselines, kept: Frame, from: Frame, b: nat)
    requires forall i :: 0 <= i < |kept| ==> kept[i].num < b
    requires from == [] || b < from[0].num
    ensures Insert(base, kept + from, b) == kept + ([Ent(b, Baseline(base, b))] + from)
    decreases |kept|
  {
    hide Baseline;
    if kept == [] {
      assert kept + from == from;
    } else {
      assert (kept + from)[1..] == kept[1..] + from;
      InsertAfter(base, kept[1..], from, b);
    }
  }

  lemma AppendDiffers(kept: Frame, a: Frame, b: Frame)
    requires a != b
    ensures kept + a != kept + b
  {
    assert (kept + a)[|kept|..] == a && (kept + b)[|kept|..] == b;
  }

  /** Whatever entity a single byte stands for, the frame is not the new one. */
  lemma OneByteDiffers(base: Baselines, kept: Frame, from: Frame, to: Frame, b: nat)
    requires ValidFrame(kept + from) && from != to
    requires (from != [] && from[0].num == b) || forall j :: 0 <= j < |to| ==> to[j].num != b
    ensures Insert(base, kept + from, b) != kept + to
  {
    hide Insert, ValidFrame, Baseline;
    AppendDiffers(kept, from, to);
    var prev := kept + from;
    if i :| 0 <= i < |prev| && prev[i].num == b {
      InsertKeeps(base, prev, b, i);
    } else {
      assert from != [] ==> prev[|kept|] == from[0];
      var i := InsertHas(base, prev, b);
      Nowhere(kept, from, to, b);
    }
  }

  lemma Nowhere(kept: Frame, from: Frame, to: Frame, b: nat)
    requires forall i :: 0 <= i < |kept + from| ==> (kept + from)[i].num != b
    requires forall j :: 0 <= j < |to| ==> to[j].num != b
    ensures forall i :: 0 <= i < |kept + to| ==> (kept + to)[i].num != b
  {
    forall i | 0 <= i < |kept + to|
      ensures (kept + to)[i].num != b
    {
      if i < |kept| {
        assert (kept + from)[i] == (kept + to)[i];
      }
    }
  }

  // ---------- A frame that is cut ----------

  /** The frames and baselines are as they come off the wire. */
  ghost predicate AsReceived(fmt: Format, base: Baselines, from: Frame, to: Frame) {
    && |base| == MAX_ENTITIES && LeastBits(fmt)
    && (forall i :: 0 <= i < |base| ==> Settled(fmt, base[i]))
    && (forall i :: 0 <= i < |from| ==> Settled(fmt, from[i].state))
    && (forall i :: 0 <= i < |to| ==> Settled(fmt, to[i].state))
  }

  lemma ReceivedTail(fmt: Format, base: Baselines, from: Frame, to: Frame, j: nat, k: nat)
    requires AsReceived(fmt, base, from, to) && j <= |from| && k <= |to|
    ensures AsReceived(fmt, base, from[j..], to[k..])
  {
    hide LeastBits, Settled;
  }

  /** The record of an entity that was in the old frame, when at most one of its bytes is left. */
  lemma OldCutShort(fmt: Format, base: Baselines, kept: Frame, from: Frame, to: Frame, s: seq<Byte>)
    requires ValidFrame(kept + from) && ValidFrame(kept + to) && from != to
    requires from != [] && (to == [] || from[0].num <= to[0].num)
    requires s == [] || s == [from[0].num % 0x100]
    ensures ParseEnts(fmt, base, kept + from, s).0 != kept + to
  {
    hide ParseEnts, Insert, ValidFrame;
    AppendDiffers(kept, from, to);
    if s == [] {
      NoEnts(fmt, base, kept + from);
    } else {
      var b := from[0].num % 0x100;
      OneByteEnts(fmt, base, kept + from, b);
      if b != 0 {
        if b < from[0].num {
          NotBelow(kept, to, b, from[0].num);
        }
        OneByteDiffers(base, kept, from, to, b);
      }
    }
  }

  /** The record of a new entity, when at most one of its bytes is left. */
  lemma NewCutShort(fmt: Format, base: Baselines, kept: Frame, from: Frame, to: Frame, s: seq<Byte>)
    requires ValidFrame(kept + from) && ValidFrame(kept + to) && |base| == MAX_ENTITIES
    requires to != [] && (from == [] || to[0].num < from[0].num)
    requires s == [] || s == [to[0].num % 0x100]
    requires s != [] && to[0].num < 0x100 ==> to[0].state != Baseline(base, to[0].num)
    ensures ParseEnts(fmt, base, kept + from, s).0 != kept + to
  {
    hide ParseEnts, Insert, ValidFrame, Baseline;
    AppendDiffers(kept, from, to);
    if s == [] {
      NoEnts(fmt, base, kept + from);
    } else {
      var num := to[0].num;
      var b := num % 0x100;
      OneByteEnts(fmt, base, kept + from, b);
      if 0 < b < num {
        NotBelow(kept, to, b, num);
        OneByteDiffers(base, kept, from, to, b);
      } else if b == num {
        Rest1(fmt, kept, to, 1);
        InsertAfter(base, kept, from, b);
        AppendDiffers(kept, [Ent(b, Baseline(base, b))] + from, to);
      }
    }
  }

  lemma NotBelow(kept: Frame, to: Frame, b: nat, num: nat)
    requires ValidFrame(kept + to) && b < num && (to == [] || num <= to[0].num)
    ensures forall j :: 0 <= j < |to| ==> to[j].num != b
  {
    forall j | 0 <= j < |to|
      ensures to[j].num != b
    {
      assert (kept + to)[|kept| + j] == to[j] && (kept + to)[|kept|] == to[0];
    }
  }

  lemma FramesDiffer(fmt: Format, base: Baselines, kept: Frame, prev: Frame, s: seq<Byte>, to: Frame)
    requires s != [] && (forall i :: 0 <= i < |kept| ==> kept[i].num < ReadHeader(s).num)
    requires ParseEnts(fmt, base, prev, s).0 != to
    ensures ParseEnts(fmt, base, kept + prev, s).0 != kept + to
  {
    hide ParseEnts, ReadHeader;
    Propagate(fmt, base, kept, prev, s);
    AppendDiffers(kept, ParseEnts(fmt, base, prev, s).0, to);
  }

  /** A changed entity whose record is cut, but not its number. */
  lemma ChangedCut(fmt: Format, base: Baselines, from: Frame, to: Frame, s: seq<Byte>)
    requires from != [] && to != [] && from[0].num == to[0].num && s != []
    requires var h := ReadHeader(s);
             && h.num == to[0].num != 0 && !h.flags.mid.remove
             && ReadDelta(fmt, h.flags, from[0].state, h.rest).0 != to[0].state
    ensures ParseEnts(fmt, base, from, s).0 != to
  {
    hide ReadHeader, ReadDelta, ParseEnts;
    var h := ReadHeader(s);
    var (e, tail) := ReadDelta(fmt, h.flags, from[0].state, h.rest);
    ParseChanged(fmt, base, from, s, e, tail);
    assert ParseEnts(fmt, base, from, s).0[0] == Ent(h.num, e);
  }

  /** A new entity whose record is cut, but not its number. */
  lemma AddedCut(fmt: Format, base: Baselines, from: Frame, to: Frame, s: seq<Byte>)
    requires to != [] && (from == [] || to[0].num < from[0].num) && s != []
    requires var h := ReadHeader(s);
             && h.num == to[0].num != 0 && !h.flags.mid.remove
             && ReadDelta(fmt, h.flags, Baseline(base, h.num), h.rest).0 != to[0].state
    ensures ParseEnts(fmt, base, from, s).0 != to
  {
    hide ReadHeader, ReadDelta, ParseEnts, Baseline;
    var h := ReadHeader(s);
    var (e, tail) := ReadDelta(fmt, h.flags, Baseline(base, h.num), h.rest);
    ParseAdded(fmt, base, from, s, e, tail);
    assert ParseEnts(fmt, base, from, s).0[0] == Ent(h.num, e);
  }

  /** The first byte of a record is the lower half of its number. */
  lemma FirstOfRecord(fmt: Format, num: nat, from: Entity, to: Entity, force: bool)
    ensures var bytes := DeltaBytes(fmt, num, from, to, force); bytes != [] ==> |bytes| >= 2 && bytes[0] == num % 0x100
  {
    hide WriteFields, PackByte, ExtensionBytes, DeltaFlags, AnyFlag;
  }

  /** A record that is cut at a byte that is not zero. */
  lemma ChangedRecordCut(fmt: Format, base: Baselines, kept: Frame, from: Frame, to: Frame, s: seq<Byte>)
    requires ValidFrame(kept + from) && ValidFrame(kept + to) && AsReceived(fmt, base, from, to)
    requires from != [] && to != [] && from[0].num == to[0].num && from[0].state != to[0].state
    requires var bytes := DeltaBytes(fmt, to[0].num, from[0].state, to[0].state, false);
             s <= bytes && !ZerosFrom(bytes, |s|)
    ensures ParseEnts(fmt, base, kept + from, s).0 != kept + to
  {
    hide ParseEnts, ReadHeader, ReadDelta, DeltaBytes, ZerosFrom, LeastBits, Settled, ValidFrame;
    var num := to[0].num;
    FirstOfRecord(fmt, num, from[0].state, to[0].state, false);
    if |s| <= 1 {
      OldCutShort(fmt, base, kept, from, to, s);
    } else {
      Rest1(fmt, kept, to, 1);
      RecordCut(fmt, num, from[0].state, to[0].state, false, s);
      ChangedCut(fmt, base, from, to, s);
      FramesDiffer(fmt, base, kept, from, s, to);
    }
  }

  lemma AddedRecordCut(fmt: Format, base: Baselines, kept: Frame, from: Frame, to: Frame, s: seq<Byte>)
    requires ValidFrame(kept + from) && ValidFrame(kept + to) && AsReceived(fmt, base, from, to)
    requires to != [] && (from == [] || to[0].num < from[0].num)
    requires var bytes := DeltaBytes(fmt, to[0].num, Baseline(base, to[0].num), to[0].state, true);
             s <= bytes && !ZerosFrom(bytes, |s|)
    ensures ParseEnts(fmt, base, kept + from, s).0 != kept + to
  {
    hide ParseEnts, ReadHeader, ReadDelta, DeltaBytes, LeastBits, Settled, ValidFrame;
    var num := to[0].num;
    Rest1(fmt, kept, to, 1);
    var e := Baseline(base, num);
    FirstOfRecord(fmt, num, e, to[0].state, true);
    if |s| <= 1 {
      if num < 0x100 && e == to[0].state {
        NothingAnnounced(fmt, num, e);
        assert s == [];
      }
      NewCutShort(fmt, base, kept, from, to, s);
    } else {
      hide ZerosFrom;
      RecordCut(fmt, num, e, to[0].state, true, s);
      AddedCut(fmt, base, from, to, s);
      FramesDiffer(fmt, base, kept, from, s, to);
    }
  }

  // ---------- Main result ----------

  /** `rest` is what is left of the records after the first one, when nothing but zeros of that is cut. */
  lemma AfterRecord(fmt: Format, base: Baselines, prev: Frame, record: seq<Byte>, more: seq<Byte>, s: seq<Byte>)
    returns (rest: seq<Byte>)
    requires s <= record + more && !ZerosFrom(record + more, |s|)
    requires !(s <= record && !ZerosFrom(record, |s|))
    ensures rest <= more && !ZerosFrom(more, |rest|)
    ensures ParseEnts(fmt, base, prev, s).0 == ParseEnts(fmt, base, prev, record + rest).0
  {
    hide ParseEnts, Alike;
    CutJoin(record, more, s);
    if |s| >= |record| {
      rest := s[|record|..];
    } else {
      rest := [];
      PrefixAlike(s, record);
      AlikeEnts(fmt, base, prev, s, record);
      assert record + [] == record;
    }
  }

  /** Records of which a byte that is not zero is cut do not give the new frame. */
  lemma {:induction false} CutBreaks(fmt: Format, base: Baselines, kept: Frame, from: Frame, to: Frame, s: seq<Byte>)
    requires ValidFrame(kept + from) && ValidFrame(kept + to) && AsReceived(fmt, base, from, to)
    requires s <= Emit(fmt, base, from, to) && !ZerosFrom(Emit(fmt, base, from, to), |s|)
    ensures ParseEnts(fmt, base, kept + from, s).0 != kept + to
    decreases |from| + |to|
  {
    hide ParseEnts, DeltaBytes, RemoveBytes, ZerosFrom, LeastBits, Settled, ValidFrame, Baseline;
    if from == [] && to == [] {
      NothingToCut(fmt, base, |s|);
    } else if from != [] && to != [] && from[0].num == to[0].num {
      EmitEqual(fmt, base, from, to);
      hide Emit;
      if from[0].state == to[0].state {
        CutSame(fmt, base, kept, from, to, s);
      } else {
        CutChanged(fmt, base, kept, from, to, s);
      }
    } else if to != [] && (from == [] || to[0].num < from[0].num) {
      CutAdd(fmt, base, kept, from, to, s);
    } else {
      CutRemove(fmt, base, kept, from, to, s);
    }
  }

  lemma NothingToCut(fmt: Format, base: Baselines, n: nat)
    ensures ZerosFrom(Emit(fmt, base, [], []), n)
  {
  }

  lemma CutSame(fmt: Format, base: Baselines, kept: Frame, from: Frame, to: Frame, s: seq<Byte>)
    requires ValidFrame(kept + from) && ValidFrame(kept + to) && AsReceived(fmt, base, from, to)
    requires from != [] && to != [] && from[0] == to[0]
    requires s <= Emit(fmt, base, from, to) && !ZerosFrom(Emit(fmt, base, from, to), |s|)
    ensures ParseEnts(fmt, base, kept + from, s).0 != kept + to
    decreases |from| + |to|, 0
  {
    hide *;
    var state := to[0].state;
    EmitEqual(fmt, base, from, to);
    NumberInRange(kept, to);
    DeltaRoundTrip(fmt, to[0].num, state, state, false, []);
    assert Emit(fmt, base, from, to) == Emit(fmt, base, from[1..], to[1..]);
    assert kept + from == (kept + [from[0]]) + from[1..] && kept + to == (kept + [from[0]]) + to[1..];
    ReceivedTail(fmt, base, from, to, 1, 1);
    CutBreaks(fmt, base, kept + [from[0]], from[1..], to[1..], s);
  }

  lemma CutChanged(fmt: Format, base: Baselines, kept: Frame, from: Frame, to: Frame, s: seq<Byte>)
    requires ValidFrame(kept + from) && ValidFrame(kept + to) && AsReceived(fmt, base, from, to)
    requires from != [] && to != [] && from[0].num == to[0].num && from[0].state != to[0].state
    requires s <= Emit(fmt, base, from, to) && !ZerosFrom(Emit(fmt, base, from, to), |s|)
    ensures ParseEnts(fmt, base, kept + from, s).0 != kept + to
    decreases |from| + |to|, 0
  {
    var num := to[0].num;
    var record := DeltaBytes(fmt, num, from[0].state, to[0].state, false);
    hide ReadHeader, DeltaBytes, ReadDelta, ZerosFrom, Emit, ParseEnts, ValidFrame, LeastBits, DeltaFlags, Quantise;
    EmitEqual(fmt, base, from, to);
    if s <= record && !ZerosFrom(record, |s|) {
      ChangedRecordCut(fmt, base, kept, from, to, s);
    } else {
      var rest := AfterRecord(fmt, base, kept + from, record, Emit(fmt, base, from[1..], to[1..]), s);
      Rest1(fmt, kept, to, 1);
      Rest1(fmt, kept, from, 1);
      ReceivedTail(fmt, base, from, to, 1, 1);
      CutBreaks(fmt, base, [], from[1..], to[1..], rest);
      ChangedThen(fmt, base, kept, from, to, rest);
    }
  }

  lemma ChangedThen(fmt: Format, base: Baselines, kept: Frame, from: Frame, to: Frame, rest: seq<Byte>)
    requires from != [] && to != [] && from[0].num == to[0].num && from[0].state != to[0].state
    requires 0 < to[0].num < MAX_ENTITIES && forall i :: 0 <= i < |kept| ==> kept[i].num < to[0].num
    requires Quantise(fmt, from[0].state) == from[0].state && Quantise(fmt, to[0].state) == to[0].state
    requires ParseEnts(fmt, base, from[1..], rest).0 != to[1..]
    ensures ParseEnts(fmt, base, kept + from,
                      DeltaBytes(fmt, to[0].num, from[0].state, to[0].state, false) + rest).0 != kept + to
  {
    var num := to[0].num;
    var record := DeltaBytes(fmt, num, from[0].state, to[0].state, false);
    hide ReadHeader, DeltaBytes, ReadDelta, ParseEnts, LeastBits, DeltaFlags, Quantise;
    DeltaRoundTrip(fmt, num, from[0].state, to[0].state, false, rest);
    DeltaFlagsDescribed(from[0].state, to[0].state);
    ParseChanged(fmt, base, from, record + rest, to[0].state, rest);
    HeadTail(to, ParseEnts(fmt, base, from[1..], rest).0, Ent(num, to[0].state));
    FramesDiffer(fmt, base, kept, from, record + rest, to);
  }

  lemma HeadTail(to: Frame, f: Frame, first: Ent)
    requires to != [] && f != to[1..]
    ensures [first] + f != to
  {
    assert ([first] + f)[1..] == f;
  }

  lemma CutAdd(fmt: Format, base: Baselines, kept: Frame, from: Frame, to: Frame, s: seq<Byte>)
    requires ValidFrame(kept + from) && ValidFrame(kept + to) && AsReceived(fmt, base, from, to)
    requires to != [] && (from == [] || to[0].num < from[0].num)
    requires s <= Emit(fmt, base, from, to) && !ZerosFrom(Emit(fmt, base, from, to), |s|)
    ensures ParseEnts(fmt, base, kept + from, s).0 != kept + to
    decreases |from| + |to|, 0
  {
    hide ReadHeader, DeltaBytes, ReadDelta, ZerosFrom, Emit, ParseEnts, ValidFrame, LeastBits, DeltaFlags, Quantise;
    var num := to[0].num;
    Rest1(fmt, kept, to, 1);
    Rest1(fmt, kept, from, 0);
    EmitAdd(fmt, base, from, to);
    var e := base[num];
    var record := DeltaBytes(fmt, num, e, to[0].state, true);
    if s <= record && !ZerosFrom(record, |s|) {
      AddedRecordCut(fmt, base, kept, from, to, s);
    } else {
      var rest := AfterRecord(fmt, base, kept + from, record, Emit(fmt, base, from, to[1..]), s);
      ReceivedTail(fmt, base, from, to, 0, 1);
      assert from[0..] == from;
      CutBreaks(fmt, base, [], from, to[1..], rest);
      DeltaRoundTrip(fmt, num, e, to[0].state, true, rest);
      DeltaFlagsDescribed(e, to[0].state);
      ParseAdded(fmt, base, from, record + rest, to[0].state, rest);
      HeadTail(to, ParseEnts(fmt, base, from, rest).0, Ent(num, to[0].state));
      FramesDiffer(fmt, base, kept, from, record + rest, to);
    }
  }

  lemma CutRemove(fmt: Format, base: Baselines, kept: Frame, from: Frame, to: Frame, s: seq<Byte>)
    requires ValidFrame(kept + from) && ValidFrame(kept + to) && AsReceived(fmt, base, from, to)
    requires from != [] && (to == [] || from[0].num < to[0].num)
    requires s <= Emit(fmt, base, from, to) && !ZerosFrom(Emit(fmt, base, from, to), |s|)
    ensures ParseEnts(fmt, base, kept + from, s).0 != kept + to
    decreases |from| + |to|, 0
  {
    hide ReadHeader, RemoveBytes, ReadDelta, ZerosFrom, Emit, ParseEnts, ValidFrame, LeastBits, Quantise;
    var num := from[0].num;
    Rest1(fmt, kept, from, 1);
    Rest1(fmt, kept, to, 0);
    EmitRemove(fmt, base, from, to);
    var record := RemoveBytes(num);
    if s <= record && !ZerosFrom(record, |s|) {
      RemovedRecordCut(num, s);
      OldCutShort(fmt, base, kept, from, to, s);
    } else {
      var rest := AfterRecord(fmt, base, kept + from, record, Emit(fmt, base, from[1..], to), s);
      ReceivedTail(fmt, base, from, to, 1, 0);
      assert to[0..] == to;
      CutBreaks(fmt, base, [], from[1..], to, rest);
      RemoveRoundTrip(num, rest);
      ParseRemoved(fmt, base, from, record + rest);
      FramesDiffer(fmt, base, kept, from, record + rest, to);
    }
  }

  lemma RemovedRecordCut(num: nat, s: seq<Byte>)
    requires s <= RemoveBytes(num) && !ZerosFrom(RemoveBytes(num), |s|)
    ensures s == [] || s == [num % 0x100]
  {
  }
}
