/**
 * The entity delta codec (fteqtv/qw.c, fteqtv/parse.c): the differences between two entity states,
 * with a flag word of one to four extension bytes, and the reader that applies them.
 *
 * Coordinates and angles are real numbers; what the wire can carry of them is their quantised value.
 */
module Delta {
  import opened Msg

  const MAX_ENTITIES: nat := 512

  type U16 = n: int | 0 <= n < 0x1_0000

  datatype Entity = Entity(
    frame: Byte, modelindex: U16, colormap: Byte, skinnum: Byte,
    origin0: real, origin1: real, origin2: real,
    angles0: real, angles1: real, angles2: real,
    effects: U16, alpha: Byte, scale: Byte)

  // ---------- Coordinates and angles ----------

  /**
   * The coordinate format of a stream.  With `floatCoords` an origin travels as the 32 bits of a
   * float, given by the two functions; otherwise as a 16-bit multiple of an eighth.
   */
  datatype Format = Format(floatCoords: bool, floatBits: real -> nat, floatValue: nat -> real)

  /** Conversion of a real to an integer as in C. */
  function Trunc(x: real): int {
    if x >= 0.0 then x.Floor else -((-x).Floor)
  }

  /** A 16-bit word read as a signed number. */
  function Signed(n: nat): int {
    if n < 0x8000 then n else n - 0x1_0000
  }

  function CoordBytes(fmt: Format, c: real): seq<Byte> {
    if fmt.floatCoords then Long(fmt.floatBits(c)) else Short(Trunc(c * 8.0) % 0x1_0000)
  }

  function CoordValue(fmt: Format, s: seq<Byte>): real {
    if fmt.floatCoords then fmt.floatValue(GetLong(s)) else Signed(GetShort(s)) as real / 8.0
  }

  function CoordRest(fmt: Format, s: seq<Byte>): (r: seq<Byte>)
    ensures |r| <= |s|
  {
    if fmt.floatCoords then RestLong(s) else RestShort(s)
  }

  function AngleBytes(fmt: Format, a: real): seq<Byte> {
    if fmt.floatCoords then Short(Trunc(a / 360.0 * 65536.0) % 0x1_0000)
    else [Trunc(a / 360.0 * 256.0 + 0.49) % 0x100]
  }

  function AngleValue(fmt: Format, s: seq<Byte>): real {
    if fmt.floatCoords then GetShort(s) as real * 360.0 / 65536.0 else First(s) as real * 360.0 / 256.0
  }

  function AngleRest(fmt: Format, s: seq<Byte>): (r: seq<Byte>)
    ensures |r| <= |s|
  {
    if fmt.floatCoords then RestShort(s) else Rest(s)
  }

  /** The coordinate the other side sees. */
  function QCoord(fmt: Format, c: real): real {
    CoordValue(fmt, CoordBytes(fmt, c))
  }

  function QAngle(fmt: Format, a: real): real {
    AngleValue(fmt, AngleBytes(fmt, a))
  }

  function Quantise(fmt: Format, e: Entity): Entity {
    e.(origin0 := QCoord(fmt, e.origin0), origin1 := QCoord(fmt, e.origin1), origin2 := QCoord(fmt, e.origin2),
       angles0 := QAngle(fmt, e.angles0), angles1 := QAngle(fmt, e.angles1), angles2 := QAngle(fmt, e.angles2))
  }

  lemma CoordRoundTrip(fmt: Format, c: real, rest: seq<Byte>)
    ensures CoordValue(fmt, CoordBytes(fmt, c) + rest) == QCoord(fmt, c)
    ensures CoordRest(fmt, CoordBytes(fmt, c) + rest) == rest
  {
    hide Short, Long, GetShort, GetLong, RestShort, RestLong;
    assert CoordBytes(fmt, c) + [] == CoordBytes(fmt, c);
    if fmt.floatCoords {
      LongRoundTrip(fmt.floatBits(c), rest);
      LongRoundTrip(fmt.floatBits(c), []);
    } else {
      ShortRoundTrip(Trunc(c * 8.0) % 0x1_0000, rest);
      ShortRoundTrip(Trunc(c * 8.0) % 0x1_0000, []);
    }
  }

  lemma AngleRoundTrip(fmt: Format, a: real, rest: seq<Byte>)
    ensures AngleValue(fmt, AngleBytes(fmt, a) + rest) == QAngle(fmt, a)
    ensures AngleRest(fmt, AngleBytes(fmt, a) + rest) == rest
  {
    hide Short, GetShort, RestShort;
    assert AngleBytes(fmt, a) + [] == AngleBytes(fmt, a);
    if fmt.floatCoords {
      ShortRoundTrip(Trunc(a / 360.0 * 65536.0) % 0x1_0000, rest);
      ShortRoundTrip(Trunc(a / 360.0 * 65536.0) % 0x1_0000, []);
    } else {
      ReadFront(Trunc(a / 360.0 * 256.0 + 0.49) % 0x100, rest);
    }
  }

  /** Within the range of 16 bits a coordinate moves by less than an eighth. */
  lemma CoordError(fmt: Format, c: real)
    requires !fmt.floatCoords && -4096.0 <= c < 4096.0
    ensures -0.125 < QCoord(fmt, c) - c < 0.125
  {
    hide Short, GetShort;
    var n := Trunc(c * 8.0);
    TruncError(c * 8.0);
    ShortRoundTrip(n % 0x1_0000, []);
    assert CoordBytes(fmt, c) + [] == CoordBytes(fmt, c);
    SignedWord(n);
    assert QCoord(fmt, c) == n as real / 8.0;
  }

  lemma TruncError(x: real)
    ensures -1.0 < Trunc(x) as real - x < 1.0
    ensures -32768.0 <= x < 32768.0 ==> -0x8000 <= Trunc(x) < 0x8000
  {
  }

  lemma SignedWord(n: int)
    requires -0x8000 <= n < 0x8000
    ensures Signed(n % 0x1_0000 % 0x1_0000) == n
  {
  }

  /** The unit in which an angle travels. */
  function AngleStep(fmt: Format): real {
    if fmt.floatCoords then 360.0 / 65536.0 else 360.0 / 256.0
  }

  /**
   * An angle moves by less than a step, up to whole turns: by at most 0.51 of a step when it is rounded.  Below
   * zero, where the conversion rounds up, the wider format moves it by less than 1.49 steps.
   */
  lemma AngleError(fmt: Format, a: real) returns (turns: int)
    ensures 0.0 <= a < 360.0 ==> turns == 0 || turns == 1
    ensures 0.0 <= QAngle(fmt, a) < 360.0
    ensures var error := QAngle(fmt, a) + 360.0 * turns as real - a;
            var step := AngleStep(fmt);
            if fmt.floatCoords then
              if a >= 0.0 then -step < error <= 0.0 else 0.0 <= error < step
            else
              if a / 360.0 * 256.0 + 0.49 >= 0.0 then -0.51 * step < error <= 0.49 * step
              else 0.49 * step <= error < 1.49 * step
  {
    hide QAngle, Trunc;
    var n: int;
    if fmt.floatCoords {
      n := Trunc(a / 360.0 * 65536.0);
      TruncSide(a / 360.0 * 65536.0);
      turns := n / 0x1_0000;
      WideAngle(fmt, a);
    } else {
      n := Trunc(a / 360.0 * 256.0 + 0.49);
      TruncSide(a / 360.0 * 256.0 + 0.49);
      turns := n / 0x100;
      ByteAngle(fmt, a);
    }
  }

  lemma WideAngle(fmt: Format, a: real)
    requires fmt.floatCoords
    ensures var n := Trunc(a / 360.0 * 65536.0);
            QAngle(fmt, a) == (n % 0x1_0000) as real * AngleStep(fmt)
            && (n % 0x1_0000) as real + 65536.0 * (n / 0x1_0000) as real == n as real
  {
    hide Short, GetShort, Trunc;
    var n := Trunc(a / 360.0 * 65536.0);
    ShortRoundTrip(n % 0x1_0000, []);
    assert Short(n % 0x1_0000) + [] == Short(n % 0x1_0000);
  }

  lemma ByteAngle(fmt: Format, a: real)
    requires !fmt.floatCoords
    ensures var n := Trunc(a / 360.0 * 256.0 + 0.49);
            QAngle(fmt, a) == (n % 0x100) as real * AngleStep(fmt)
            && (n % 0x100) as real + 256.0 * (n / 0x100) as real == n as real
  {
    hide Trunc;
  }

  lemma TruncSide(x: real)
    ensures if x >= 0.0 then -1.0 < Trunc(x) as real - x <= 0.0 else 0.0 <= Trunc(x) as real - x < 1.0
  {
  }

  /** What a state loses on the wire: nothing but the rounding of coordinates and angles. */
  lemma QuantiseKeeps(fmt: Format, e: Entity)
    ensures var q := Quantise(fmt, e);
            && q.frame == e.frame && q.modelindex == e.modelindex && q.colormap == e.colormap
            && q.skinnum == e.skinnum && q.effects == e.effects && q.alpha == e.alpha && q.scale == e.scale
            && (!fmt.floatCoords ==>
                  && (-4096.0 <= e.origin0 < 4096.0 ==> -0.125 < q.origin0 - e.origin0 < 0.125)
                  && (-4096.0 <= e.origin1 < 4096.0 ==> -0.125 < q.origin1 - e.origin1 < 0.125)
                  && (-4096.0 <= e.origin2 < 4096.0 ==> -0.125 < q.origin2 - e.origin2 < 0.125))
            && (fmt.floatCoords ==>
                  && q.origin0 == fmt.floatValue(fmt.floatBits(e.origin0) % 0x1_0000_0000)
                  && q.origin1 == fmt.floatValue(fmt.floatBits(e.origin1) % 0x1_0000_0000)
                  && q.origin2 == fmt.floatValue(fmt.floatBits(e.origin2) % 0x1_0000_0000))
            && NearAngle(fmt, e.angles0, q.angles0) && NearAngle(fmt, e.angles1, q.angles1)
            && NearAngle(fmt, e.angles2, q.angles2)
  {
    hide QCoord, QAngle;
    if fmt.floatCoords {
      FloatCoord(fmt, e.origin0);
      FloatCoord(fmt, e.origin1);
      FloatCoord(fmt, e.origin2);
    } else {
      if -4096.0 <= e.origin0 < 4096.0 { CoordError(fmt, e.origin0); }
      if -4096.0 <= e.origin1 < 4096.0 { CoordError(fmt, e.origin1); }
      if -4096.0 <= e.origin2 < 4096.0 { CoordError(fmt, e.origin2); }
    }
    AngleIsNear(fmt, e.angles0);
    AngleIsNear(fmt, e.angles1);
    AngleIsNear(fmt, e.angles2);
  }

  lemma FloatCoord(fmt: Format, c: real)
    requires fmt.floatCoords
    ensures QCoord(fmt, c) == fmt.floatValue(fmt.floatBits(c) % 0x1_0000_0000)
  {
    hide Long, GetLong;
    LongRoundTrip(fmt.floatBits(c), []);
    assert Long(fmt.floatBits(c)) + [] == Long(fmt.floatBits(c));
  }

  /** Two angles are less than one and a half steps apart, and those from zero to a full turn less than one. */
  ghost predicate NearAngle(fmt: Format, a: real, q: real) {
    exists turns: int :: TurnsApart(fmt, a, q, turns)
  }

  predicate TurnsApart(fmt: Format, a: real, q: real, turns: int) {
    var error := q + 360.0 * turns as real - a;
    && -1.5 * AngleStep(fmt) < error < 1.5 * AngleStep(fmt)
    && (0.0 <= a < 360.0 ==> -AngleStep(fmt) < error < AngleStep(fmt))
  }

  lemma AngleIsNear(fmt: Format, a: real)
    ensures NearAngle(fmt, a, QAngle(fmt, a))
  {
    hide QAngle;
    var turns := AngleError(fmt, a);
    assert TurnsApart(fmt, a, QAngle(fmt, a), turns);
  }

  /** The bits of a float stand for the same number after it was converted and sent again. */
  predicate Rereads(fmt: Format, bits: nat) {
    fmt.floatValue(fmt.floatBits(fmt.floatValue(bits)) % 0x1_0000_0000) == fmt.floatValue(bits)
  }

  /** A quantised coordinate is a fixed point, so relaying it again changes nothing. */
  lemma CoordIdempotent(fmt: Format, c: real)
    ensures QCoord(fmt, QCoord(fmt, c)) == QCoord(fmt, c)
            <==> !fmt.floatCoords || Rereads(fmt, fmt.floatBits(c) % 0x1_0000_0000)
  {
    hide Short, Long, GetShort, GetLong;
    if fmt.floatCoords {
      LongRoundTrip(fmt.floatBits(c), []);
      assert Long(fmt.floatBits(c)) + [] == Long(fmt.floatBits(c));
      var q := QCoord(fmt, c);
      LongRoundTrip(fmt.floatBits(q), []);
      assert Long(fmt.floatBits(q)) + [] == Long(fmt.floatBits(q));
    } else {
      var w := Trunc(c * 8.0) % 0x1_0000;
      ShortRoundTrip(w, []);
      assert Short(w) + [] == Short(w);
      var q := QCoord(fmt, c);
      assert q * 8.0 == Signed(w) as real;
      assert Trunc(q * 8.0) == Signed(w);
    }
  }

  lemma AngleIdempotent(fmt: Format, a: real)
    ensures QAngle(fmt, QAngle(fmt, a)) == QAngle(fmt, a)
  {
    hide Short, GetShort;
    var q := QAngle(fmt, a);
    if fmt.floatCoords {
      var w := Trunc(a / 360.0 * 65536.0) % 0x1_0000;
      ShortRoundTrip(w, []);
      assert Short(w) + [] == Short(w);
      assert q / 360.0 * 65536.0 == w as real;
    } else {
      var b := Trunc(a / 360.0 * 256.0 + 0.49) % 0x100;
      assert q == b as real * 360.0 / 256.0;
      assert q / 360.0 * 256.0 == b as real;
      assert Trunc(b as real + 0.49) == b;
    }
  }

  /** Relaying a received state through any number of proxies changes it no further. */
  lemma QuantiseIdempotent(fmt: Format, e: Entity)
    requires fmt.floatCoords ==> forall bits: nat :: bits < 0x1_0000_0000 ==> Rereads(fmt, bits)
    ensures Quantise(fmt, Quantise(fmt, e)) == Quantise(fmt, e)
  {
    hide QCoord, QAngle, Rereads;
    CoordIdempotent(fmt, e.origin0);
    CoordIdempotent(fmt, e.origin1);
    CoordIdempotent(fmt, e.origin2);
    AngleIdempotent(fmt, e.angles0);
    AngleIdempotent(fmt, e.angles1);
    AngleIdempotent(fmt, e.angles2);
  }

  // ---------- Bits of a byte ----------

  function Number(bits: seq<bool>): nat {
    if bits == [] then 0 else (if bits[0] then 1 else 0) + 2 * Number(bits[1..])
  }

  function Bits(n: nat, count: nat): (bits: seq<bool>)
    ensures |bits| == count
  {
    if count == 0 then [] else [n % 2 == 1] + Bits(n / 2, count - 1)
  }

  function Power2(n: nat): nat {
    if n == 0 then 1 else 2 * Power2(n - 1)
  }

  lemma {:induction false} NumberBound(bits: seq<bool>)
    ensures Number(bits) < Power2(|bits|)
  {
    if bits != [] {
      NumberBound(bits[1..]);
    }
  }

  lemma {:induction false} BitsRoundTrip(bits: seq<bool>)
    ensures Bits(Number(bits), |bits|) == bits
  {
    if bits != [] {
      BitsRoundTrip(bits[1..]);
      assert Number(bits) / 2 == Number(bits[1..]);
    }
  }

  function PackByte(bits: seq<bool>): Byte
    requires |bits| == 8
  {
    NumberBound(bits);
    assert Power2(8) == 256 by {
      assert Power2(4) == 16;
    }
    Number(bits)
  }

  // ---------- The flag word ----------

  /** Bits 0 to 7 of the flag word, the first extension byte. */
  datatype LowFlags = LowFlags(
    angle1: bool, angle3: bool, model: bool, colormap: bool, skin: bool, effects: bool, solid: bool, evenMore: bool)
  {
    function List(): (s: seq<bool>) ensures |s| == 8 {
      [angle1, angle3, model, colormap, skin, effects, solid, evenMore]
    }
  }

  /** Bits 9 to 15; the nine bits below them hold the entity number. */
  datatype MidFlags = MidFlags(
    origin1: bool, origin2: bool, origin3: bool, angle2: bool, frame: bool, remove: bool, moreBits: bool)
  {
    function List(): (s: seq<bool>) ensures |s| == 7 {
      [origin1, origin2, origin3, angle2, frame, remove, moreBits]
    }
  }

  /** Bits 16 to 23, the second extension byte. */
  datatype ExtFlags = ExtFlags(
    scale: bool, alpha: bool, fatness: bool, modelDbl: bool, unused: bool, entityDbl: bool, entityDbl2: bool,
    yetMore: bool)
  {
    function List(): (s: seq<bool>) ensures |s| == 8 {
      [scale, alpha, fatness, modelDbl, unused, entityDbl, entityDbl2, yetMore]
    }
  }

  /** Bits 24 to 31, the third extension byte. */
  datatype FarFlags = FarFlags(
    drawFlags: bool, absLight: bool, colourMod: bool, dpFlags: bool, tagInfo: bool, light: bool, effects16: bool,
    farMore: bool)
  {
    function List(): (s: seq<bool>) ensures |s| == 8 {
      [drawFlags, absLight, colourMod, dpFlags, tagInfo, light, effects16, farMore]
    }
  }

  datatype Flags = Flags(low: LowFlags, mid: MidFlags, ext: ExtFlags, far: FarFlags)

  const NO_LOW := LowFlags(false, false, false, false, false, false, false, false)
  const NO_EXT := ExtFlags(false, false, false, false, false, false, false, false)
  const NO_FAR := FarFlags(false, false, false, false, false, false, false, false)

  function LowOf(b: Byte): LowFlags {
    var s := Bits(b, 8);
    LowFlags(s[0], s[1], s[2], s[3], s[4], s[5], s[6], s[7])
  }

  function ExtOf(b: Byte): ExtFlags {
    var s := Bits(b, 8);
    ExtFlags(s[0], s[1], s[2], s[3], s[4], s[5], s[6], s[7])
  }

  function FarOf(b: Byte): FarFlags {
    var s := Bits(b, 8);
    FarFlags(s[0], s[1], s[2], s[3], s[4], s[5], s[6], s[7])
  }

  /** The second byte of the header: the ninth bit of the number and seven flags. */
  function MidOf(b: Byte): (bool, MidFlags) {
    var s := Bits(b, 8);
    (s[0], MidFlags(s[1], s[2], s[3], s[4], s[5], s[6], s[7]))
  }

  lemma LowRoundTrip(f: LowFlags)
    ensures LowOf(PackByte(f.List())) == f
  {
    BitsRoundTrip(f.List());
  }

  lemma ExtRoundTrip(f: ExtFlags)
    ensures ExtOf(PackByte(f.List())) == f
  {
    BitsRoundTrip(f.List());
  }

  lemma FarRoundTrip(f: FarFlags)
    ensures FarOf(PackByte(f.List())) == f
  {
    BitsRoundTrip(f.List());
  }

  lemma MidRoundTrip(high: bool, f: MidFlags)
    ensures MidOf(PackByte([high] + f.List())) == (high, f)
  {
    BitsRoundTrip([high] + f.List());
  }

  /** What differs, one flag per field; a model index has three widths. */
  function DifferenceFlags(from: Entity, to: Entity): Flags {
    var model := from.modelindex != to.modelindex;
    Flags(
      LowFlags(from.angles0 != to.angles0, from.angles2 != to.angles2, model && to.modelindex <= 0x1ff,
               from.colormap != to.colormap, from.skinnum != to.skinnum,
               from.effects % 0x100 != to.effects % 0x100, false, false),
      MidFlags(from.origin0 != to.origin0, from.origin1 != to.origin1, from.origin2 != to.origin2,
               from.angles1 != to.angles1, from.frame != to.frame, false, false),
      NO_EXT.(scale := from.scale != to.scale, alpha := from.alpha != to.alpha,
              modelDbl := model && to.modelindex > 0xff),
      NO_FAR.(effects16 := from.effects / 0x100 != to.effects / 0x100))
  }

  /** Adds the flags that announce the extension bytes, the last byte first. */
  function Extend(f: Flags): Flags {
    var ext := if f.far != NO_FAR then f.ext.(yetMore := true) else f.ext;
    var low := if ext != NO_EXT then f.low.(evenMore := true) else f.low;
    var mid := if low != NO_LOW then f.mid.(moreBits := true) else f.mid;
    Flags(low, mid, ext, f.far)
  }

  function DeltaFlags(from: Entity, to: Entity): Flags {
    Extend(DifferenceFlags(from, to))
  }

  predicate AnyFlag(f: Flags) {
    f.low != NO_LOW || f.ext != NO_EXT || f.far != NO_FAR
    || exists i :: 0 <= i < 7 && f.mid.List()[i]
  }

  function HeaderBytes(num: nat, f: Flags): (s: seq<Byte>)
    ensures |s| >= 2
  {
    [num % 0x100, PackByte([num / 0x100 % 2 == 1] + f.mid.List())] + ExtensionBytes(f)
  }

  datatype Header = Header(num: nat, flags: Flags, rest: seq<Byte>)

  /** The flag bytes that the second header byte and then each other announce. */
  function ReadExtensions(mid: MidFlags, s: seq<Byte>): (r: (Flags, seq<Byte>))
    ensures |r.1| <= |s| && r.0.mid == mid
  {
    if !mid.moreBits then (Flags(NO_LOW, mid, NO_EXT, NO_FAR), s)
    else
      var low, s2 := LowOf(First(s)), Rest(s);
      if !low.evenMore then (Flags(low, mid, NO_EXT, NO_FAR), s2)
      else
        var ext, s3 := ExtOf(First(s2)), Rest(s2);
        if !ext.yetMore then (Flags(low, mid, ext, NO_FAR), s3)
        else (Flags(low, mid, ext, FarOf(First(s3))), Rest(s3))
  }

  function EntityNumber(b1: Byte, high: bool, ext: ExtFlags): nat {
    (b1 as int) + (if high then 0x100 else 0) + (if ext.entityDbl then 512 else 0)
    + (if ext.entityDbl2 then 1024 else 0)
  }

  /** readentitynum: the entity number, the flag word and what follows; number 0 ends the list. */
  function ReadHeader(s: seq<Byte>): (h: Header)
    ensures |h.rest| <= |s|
    ensures s != [] ==> |h.rest| < |s|
    ensures s == [] ==> h.num == 0
    ensures h.num < 0x800
  {
    var b1, b2 := First(s), First(Rest(s));
    var (high, mid) := MidOf(b2);
    if b1 == 0 && b2 == 0 then Header(0, Flags(NO_LOW, mid, NO_EXT, NO_FAR), RestShort(s))
    else
      var (f, rest) := ReadExtensions(mid, RestShort(s));
      Header(EntityNumber(b1, high, f.ext), f, rest)
  }

  /** A flag word that announces exactly its own extension bytes. */
  predicate Announced(f: Flags) {
    && (f.ext.yetMore <==> f.far != NO_FAR)
    && (f.low.evenMore <==> f.ext != NO_EXT)
    && (f.mid.moreBits <==> f.low != NO_LOW)
  }

  /** One that does not extend the number either. */
  predicate SelfDescribing(f: Flags) {
    Announced(f) && !f.ext.entityDbl && !f.ext.entityDbl2
  }

  lemma DeltaFlagsDescribed(from: Entity, to: Entity)
    ensures SelfDescribing(DeltaFlags(from, to)) && !DeltaFlags(from, to).mid.remove
  {
  }

  function ExtensionBytes(f: Flags): seq<Byte> {
    (if f.mid.moreBits then [PackByte(f.low.List())] else [])
    + (if f.low.evenMore then [PackByte(f.ext.List())] else [])
    + (if f.ext.yetMore then [PackByte(f.far.List())] else [])
  }

  lemma ExtensionsRoundTrip(f: Flags, rest: seq<Byte>)
    requires Announced(f)
    ensures ReadExtensions(f.mid, ExtensionBytes(f) + rest) == (f, rest)
  {
    hide LowOf, ExtOf, FarOf, PackByte;
    LowRoundTrip(f.low);
    ExtRoundTrip(f.ext);
    FarRoundTrip(f.far);
    var low, ext, far := PackByte(f.low.List()), PackByte(f.ext.List()), PackByte(f.far.List());
    var s := ExtensionBytes(f) + rest;
    if !f.mid.moreBits {
      assert s == rest;
    } else if !f.low.evenMore {
      assert s == [low] + rest;
    } else if !f.ext.yetMore {
      assert s == [low] + ([ext] + rest);
    } else {
      assert s == [low] + ([ext] + ([far] + rest));
    }
  }

  /**
   * The number and the full flag word are recovered, and exactly the header's bytes are consumed. Two of the flags
   * stand for further bits of the number.
   */
  lemma HeaderRoundTrip(num: nat, f: Flags, rest: seq<Byte>)
    requires 0 < num < 512 && Announced(f)
    ensures ReadHeader(HeaderBytes(num, f) + rest)
            == Header(num + (if f.ext.entityDbl then 512 else 0) + (if f.ext.entityDbl2 then 1024 else 0), f, rest)
  {
    hide MidOf, PackByte, ExtensionBytes, ReadExtensions;
    var b2 := PackByte([num / 0x100 % 2 == 1] + f.mid.List());
    var s := HeaderBytes(num, f) + rest;
    MidRoundTrip(num / 0x100 % 2 == 1, f.mid);
    ExtensionsRoundTrip(f, rest);
    assert s == [num % 0x100] + ([b2] + (ExtensionBytes(f) + rest));
    assert RestShort(s) == ExtensionBytes(f) + rest;
    assert First(Rest(s)) == b2;
    if b2 == 0 {
      ZeroByte([num / 0x100 % 2 == 1] + f.mid.List());
    }
  }

  lemma ZeroByte(bits: seq<bool>)
    requires |bits| == 8 && PackByte(bits) == 0
    ensures !bits[0]
  {
  }

  // ---------- The fields ----------

  /** The optional parts of a record, in the order in which they travel. */
  datatype Field =
    | Model | Frame | Colormap | Skin | EffectsLow
    | Origin0 | Angle0 | Origin1 | Angle1 | Origin2 | Angle2
    | Scale | Alpha | Ignored(flag: IgnoredFlag) | EffectsHigh

  /** Fields that the reader skips and the writer never sends. */
  datatype IgnoredFlag = Fatness | DrawFlags | AbsLight | ColourMod | DpFlags | TagInfo | Light

  const ORDER: seq<Field> := [
    Model, Frame, Colormap, Skin, EffectsLow,
    Origin0, Angle0, Origin1, Angle1, Origin2, Angle2,
    Scale, Alpha, Ignored(Fatness), Ignored(DrawFlags), Ignored(AbsLight), Ignored(ColourMod),
    Ignored(DpFlags), Ignored(TagInfo), Ignored(Light), EffectsHigh]

  predicate IgnoredPresent(i: IgnoredFlag, f: Flags) {
    match i
    case Fatness => f.ext.fatness
    case DrawFlags => f.far.drawFlags
    case AbsLight => f.far.absLight
    case ColourMod => f.far.colourMod
    case DpFlags => f.far.dpFlags
    case TagInfo => f.far.tagInfo
    case Light => f.far.light
  }

  function IgnoredSize(i: IgnoredFlag): nat {
    match i
    case ColourMod => 3
    case TagInfo => 4
    case Light => 10
    case _ => 1
  }

  predicate Present(field: Field, f: Flags) {
    match field
    case Model => f.low.model || f.ext.modelDbl
    case Frame => f.mid.frame
    case Colormap => f.low.colormap
    case Skin => f.low.skin
    case EffectsLow => f.low.effects
    case Origin0 => f.mid.origin1
    case Angle0 => f.low.angle1
    case Origin1 => f.mid.origin2
    case Angle1 => f.mid.angle2
    case Origin2 => f.mid.origin3
    case Angle2 => f.low.angle3
    case Scale => f.ext.scale
    case Alpha => f.ext.alpha
    case Ignored(i) => IgnoredPresent(i, f)
    case EffectsHigh => f.far.effects16
  }

  /** The bytes of a field that is sent. */
  function FieldBytes(fmt: Format, field: Field, f: Flags, to: Entity): seq<Byte> {
    match field
    case Model => if f.low.model then [to.modelindex % 0x100] else Short(to.modelindex)
    case Frame => [to.frame]
    case Colormap => [to.colormap]
    case Skin => [to.skinnum]
    case EffectsLow => [to.effects % 0x100]
    case Origin0 => CoordBytes(fmt, to.origin0)
    case Angle0 => AngleBytes(fmt, to.angles0)
    case Origin1 => CoordBytes(fmt, to.origin1)
    case Angle1 => AngleBytes(fmt, to.angles1)
    case Origin2 => CoordBytes(fmt, to.origin2)
    case Angle2 => AngleBytes(fmt, to.angles2)
    case Scale => [to.scale]
    case Alpha => [to.alpha]
    case Ignored(_) => []
    case EffectsHigh => [to.effects / 0x100]
  }

  function Skip(s: seq<Byte>, n: nat): (r: seq<Byte>)
    ensures |r| <= |s|
  {
    if n == 0 then s else Skip(Rest(s), n - 1)
  }

  lemma SkipEnough(s: seq<Byte>, n: nat)
    requires n <= |s|
    ensures Skip(s, n) == s[n..]
  {
    if n > 0 {
      SkipEnough(s[1..], n - 1);
    }
  }

  /** The state and the remaining bytes after one field that is present has been read. */
  function ReadField(fmt: Format, field: Field, f: Flags, e: Entity, s: seq<Byte>): (r: (Entity, seq<Byte>))
    ensures |r.1| <= |s|
  {
    match field
    case Model =>
      if f.low.model
      then (e.(modelindex := if f.ext.modelDbl then First(s) + 0x100 else First(s)), Rest(s))
      else (e.(modelindex := GetShort(s)), RestShort(s))
    case Frame => (e.(frame := First(s)), Rest(s))
    case Colormap => (e.(colormap := First(s)), Rest(s))
    case Skin => (e.(skinnum := First(s)), Rest(s))
    case EffectsLow => (e.(effects := e.effects / 0x100 * 0x100 + First(s)), Rest(s))
    case Origin0 => (e.(origin0 := CoordValue(fmt, s)), CoordRest(fmt, s))
    case Angle0 => (e.(angles0 := AngleValue(fmt, s)), AngleRest(fmt, s))
    case Origin1 => (e.(origin1 := CoordValue(fmt, s)), CoordRest(fmt, s))
    case Angle1 => (e.(angles1 := AngleValue(fmt, s)), AngleRest(fmt, s))
    case Origin2 => (e.(origin2 := CoordValue(fmt, s)), CoordRest(fmt, s))
    case Angle2 => (e.(angles2 := AngleValue(fmt, s)), AngleRest(fmt, s))
    case Scale => (e.(scale := First(s)), Rest(s))
    case Alpha => (e.(alpha := First(s)), Rest(s))
    case Ignored(i) => (e, Skip(s, IgnoredSize(i)))
    case EffectsHigh => (e.(effects := e.effects % 0x100 + 0x100 * First(s)), Rest(s))
  }

  /** What a field adds to the record. */
  function Piece(fmt: Format, field: Field, f: Flags, to: Entity): seq<Byte> {
    if Present(field, f) then FieldBytes(fmt, field, f, to) else []
  }

  /** Fields that the reader does not know change nothing, and take as many bytes as the protocol gives them. */
  lemma IgnoredSkipped(fmt: Format, i: IgnoredFlag, f: Flags, e: Entity, s: seq<Byte>)
    requires |s| >= 10
    ensures ReadField(fmt, Ignored(i), f, e, s)
            == (e, s[if i.Light? then 10 else if i.TagInfo? then 4 else if i.ColourMod? then 3 else 1..])
  {
    SkipEnough(s, IgnoredSize(i));
  }

  function WriteFields(fmt: Format, fields: seq<Field>, f: Flags, to: Entity): seq<Byte> {
    if fields == [] then [] else Piece(fmt, fields[0], f, to) + WriteFields(fmt, fields[1..], f, to)
  }

  function ReadFields(fmt: Format, fields: seq<Field>, f: Flags, e: Entity, s: seq<Byte>): (r: (Entity, seq<Byte>))
    ensures |r.1| <= |s|
  {
    if fields == [] then (e, s)
    else
      var (e', s') := if Present(fields[0], f) then ReadField(fmt, fields[0], f, e, s) else (e, s);
      ReadFields(fmt, fields[1..], f, e', s')
  }

  /** SV_WriteDelta: nothing at all when nothing differs and the record is not forced. */
  function DeltaBytes(fmt: Format, num: nat, from: Entity, to: Entity, force: bool): seq<Byte> {
    var f := DeltaFlags(from, to);
    if !AnyFlag(f) && !force then [] else HeaderBytes(num, f) + WriteFields(fmt, ORDER, f, to)
  }

  /** ParseEntityDelta. */
  function ReadDelta(fmt: Format, f: Flags, base: Entity, s: seq<Byte>): (r: (Entity, seq<Byte>))
    ensures |r.1| <= |s|
  {
    ReadFields(fmt, ORDER, f, base, s)
  }

  // ---------- The layout of a record ----------

  function One(c: bool): (r: nat) {
    if c then 1 else 0
  }

  lemma NumberFrom(bits: seq<bool>, k: nat)
    requires k < |bits|
    ensures Number(bits[k..]) == One(bits[k]) + 2 * Number(bits[k + 1..])
  {
    assert bits[k..][1..] == bits[k + 1..];
  }

  lemma FourBits(bits: seq<bool>, k: nat)
    requires k + 4 <= |bits|
    ensures Number(bits[k..])
            == One(bits[k]) + 0x02 * One(bits[k + 1]) + 0x04 * One(bits[k + 2]) + 0x08 * One(bits[k + 3])
               + 0x10 * Number(bits[k + 4..])
  {
    hide Number, One;
    NumberFrom(bits, k);
    NumberFrom(bits, k + 1);
    NumberFrom(bits, k + 2);
    NumberFrom(bits, k + 3);
  }

  /** The weights of the bits of a byte. */
  lemma EightBits(bits: seq<bool>)
    requires |bits| == 8
    ensures PackByte(bits)
            == One(bits[0]) + 0x02 * One(bits[1]) + 0x04 * One(bits[2]) + 0x08 * One(bits[3])
               + 0x10 * One(bits[4]) + 0x20 * One(bits[5]) + 0x40 * One(bits[6]) + 0x80 * One(bits[7])
  {
    hide Number, One;
    PackIs(bits);
    hide PackByte;
    FourBits(bits, 0);
    FourBits(bits, 4);
    NoBits();
    assert bits[0..] == bits && bits[8..] == [];
  }

  lemma PackIs(bits: seq<bool>)
    requires |bits| == 8
    ensures PackByte(bits) == Number(bits)
  {
  }

  lemma NoBits()
    ensures Number([]) == 0
  {
  }

  /** The extension bytes of a record, 0 when they are not sent: bits 24 to 31, 16 to 23, and 0 to 7. */
  function FarByte(from: Entity, to: Entity): nat {
    0x40 * One(from.effects / 0x100 != to.effects / 0x100)
  }

  function ExtByte(from: Entity, to: Entity): nat {
    One(from.scale != to.scale) + 0x02 * One(from.alpha != to.alpha)
    + 0x08 * One(from.modelindex != to.modelindex && to.modelindex > 0xff) + 0x80 * One(FarByte(from, to) > 0)
  }

  function LowByte(from: Entity, to: Entity): nat {
    One(from.angles0 != to.angles0) + 0x02 * One(from.angles2 != to.angles2)
    + 0x04 * One(from.modelindex != to.modelindex && to.modelindex <= 0x1ff)
    + 0x08 * One(from.colormap != to.colormap) + 0x10 * One(from.skinnum != to.skinnum)
    + 0x20 * One(from.effects % 0x100 != to.effects % 0x100) + 0x80 * One(ExtByte(from, to) > 0)
  }

  /** The number of the entity in nine bits, and bits 9 to 15. */
  function FirstWord(num: nat, from: Entity, to: Entity): nat {
    num + 0x200 * One(from.origin0 != to.origin0) + 0x400 * One(from.origin1 != to.origin1)
    + 0x800 * One(from.origin2 != to.origin2) + 0x1000 * One(from.angles1 != to.angles1)
    + 0x2000 * One(from.frame != to.frame) + 0x8000 * One(LowByte(from, to) > 0)
  }

  predicate NewFar(from: Entity, to: Entity) {
    from.effects / 0x100 != to.effects / 0x100
  }

  predicate NewExt(from: Entity, to: Entity) {
    from.scale != to.scale || from.alpha != to.alpha || (from.modelindex != to.modelindex && to.modelindex > 0xff)
    || NewFar(from, to)
  }

  predicate NewLow(from: Entity, to: Entity) {
    from.angles0 != to.angles0 || from.angles2 != to.angles2
    || (from.modelindex != to.modelindex && to.modelindex <= 0x1ff) || from.colormap != to.colormap
    || from.skinnum != to.skinnum || from.effects % 0x100 != to.effects % 0x100 || NewExt(from, to)
  }

  lemma BytesAreSent(from: Entity, to: Entity)
    ensures FarByte(from, to) > 0 <==> NewFar(from, to)
    ensures ExtByte(from, to) > 0 <==> NewExt(from, to)
    ensures LowByte(from, to) > 0 <==> NewLow(from, to)
  {
  }

  lemma ExtFlagsAre(from: Entity, to: Entity)
    ensures var f := DeltaFlags(from, to);
            && f.far == FarFlags(false, false, false, false, false, false, NewFar(from, to), false)
            && f.ext == ExtFlags(from.scale != to.scale, from.alpha != to.alpha, false,
                                 from.modelindex != to.modelindex && to.modelindex > 0xff, false, false, false,
                                 NewFar(from, to))
  {
  }

  lemma LowFlagsAre(from: Entity, to: Entity)
    ensures DeltaFlags(from, to).low
            == LowFlags(from.angles0 != to.angles0, from.angles2 != to.angles2,
                        from.modelindex != to.modelindex && to.modelindex <= 0x1ff,
                        from.colormap != to.colormap, from.skinnum != to.skinnum,
                        from.effects % 0x100 != to.effects % 0x100, false, NewExt(from, to))
  {
  }

  lemma MidFlagsAre(from: Entity, to: Entity)
    ensures DeltaFlags(from, to).mid
            == MidFlags(from.origin0 != to.origin0, from.origin1 != to.origin1, from.origin2 != to.origin2,
                        from.angles1 != to.angles1, from.frame != to.frame, false, NewLow(from, to))
  {
    LowFlagsAre(from, to);
    DeltaFlagsDescribed(from, to);
  }

  lemma NumberAndMid(num: nat, bits: seq<bool>)
    requires num < 512 && |bits| == 8 && bits[0] == (num / 0x100 % 2 == 1) && !bits[6]
    ensures num % 0x100 + 0x100 * PackByte(bits)
            == num + 0x200 * One(bits[1]) + 0x400 * One(bits[2]) + 0x800 * One(bits[3]) + 0x1000 * One(bits[4])
               + 0x2000 * One(bits[5]) + 0x8000 * One(bits[7])
  {
    hide PackByte;
    EightBits(bits);
  }

  lemma TwoBytes(low: Byte, high: Byte)
    ensures Short(low + 0x100 * high) == [low, high]
  {
  }

  lemma MidLayout(num: nat, from: Entity, to: Entity)
    requires num < 512
    ensures var f := DeltaFlags(from, to);
            [num % 0x100, PackByte([num / 0x100 % 2 == 1] + f.mid.List())] == Short(FirstWord(num, from, to))
  {
    hide PackByte, LowByte, One, Short, DeltaFlags, NewLow;
    MidFlagsAre(from, to);
    BytesAreSent(from, to);
    var bits := [num / 0x100 % 2 == 1] + DeltaFlags(from, to).mid.List();
    NumberAndMid(num, bits);
    TwoBytes(num % 0x100, PackByte(bits));
  }

  lemma ExtensionLayout(from: Entity, to: Entity)
    ensures PackByte(DeltaFlags(from, to).low.List()) == LowByte(from, to)
    ensures PackByte(DeltaFlags(from, to).ext.List()) == ExtByte(from, to)
    ensures PackByte(DeltaFlags(from, to).far.List()) == FarByte(from, to)
  {
    hide PackByte, DeltaFlags, NewFar, NewExt, NewLow;
    LowFlagsAre(from, to);
    ExtFlagsAre(from, to);
    BytesAreSent(from, to);
    EightBits(DeltaFlags(from, to).low.List());
    EightBits(DeltaFlags(from, to).ext.List());
    EightBits(DeltaFlags(from, to).far.List());
  }

  function When(c: bool, s: seq<Byte>): seq<Byte> {
    if c then s else []
  }

  function ModelBytes(to: Entity): seq<Byte> {
    if to.modelindex <= 0x1ff then [to.modelindex % 0x100] else Short(to.modelindex)
  }

  /** The fields of a record, each exactly when it differs, in the order of the protocol. */
  function FieldLayout(fmt: Format, from: Entity, to: Entity): seq<Byte> {
    When(from.modelindex != to.modelindex, ModelBytes(to))
    + When(from.frame != to.frame, [to.frame]) + When(from.colormap != to.colormap, [to.colormap])
    + When(from.skinnum != to.skinnum, [to.skinnum])
    + When(from.effects % 0x100 != to.effects % 0x100, [to.effects % 0x100])
    + When(from.origin0 != to.origin0, CoordBytes(fmt, to.origin0))
    + When(from.angles0 != to.angles0, AngleBytes(fmt, to.angles0))
    + When(from.origin1 != to.origin1, CoordBytes(fmt, to.origin1))
    + When(from.angles1 != to.angles1, AngleBytes(fmt, to.angles1))
    + When(from.origin2 != to.origin2, CoordBytes(fmt, to.origin2))
    + When(from.angles2 != to.angles2, AngleBytes(fmt, to.angles2))
    + When(from.scale != to.scale, [to.scale]) + When(from.alpha != to.alpha, [to.alpha])
    + When(from.effects / 0x100 != to.effects / 0x100, [to.effects / 0x100])
  }

  lemma {:induction false} WriteFieldsAppend(fmt: Format, s: seq<Field>, field: Field, f: Flags, to: Entity)
    ensures WriteFields(fmt, s + [field], f, to) == WriteFields(fmt, s, f, to) + Piece(fmt, field, f, to)
  {
    hide Piece;
    if s == [] {
      assert WriteFields(fmt, [field], f, to) == Piece(fmt, field, f, to) + WriteFields(fmt, [], f, to);
      assert [] + [field] == [field];
    } else {
      assert (s + [field])[1..] == s[1..] + [field];
      WriteFieldsAppend(fmt, s[1..], field, f, to);
    }
  }

  lemma PrefixPiece(fmt: Format, k: nat, f: Flags, to: Entity)
    requires k < |ORDER|
    ensures WriteFields(fmt, ORDER[..k + 1], f, to)
            == WriteFields(fmt, ORDER[..k], f, to) + Piece(fmt, ORDER[k], f, to)
  {
    hide ORDER, Piece, WriteFields;
    assert ORDER[..k] + [ORDER[k]] == ORDER[..k + 1];
    WriteFieldsAppend(fmt, ORDER[..k], ORDER[k], f, to);
  }

  lemma PiecesAre(fmt: Format, from: Entity, to: Entity)
    ensures var f := DeltaFlags(from, to);
            && Piece(fmt, Model, f, to) == When(from.modelindex != to.modelindex, ModelBytes(to))
            && Piece(fmt, Frame, f, to) == When(from.frame != to.frame, [to.frame])
            && Piece(fmt, Colormap, f, to) == When(from.colormap != to.colormap, [to.colormap])
            && Piece(fmt, Skin, f, to) == When(from.skinnum != to.skinnum, [to.skinnum])
            && Piece(fmt, EffectsLow, f, to)
               == When(from.effects % 0x100 != to.effects % 0x100, [to.effects % 0x100])
  {
    hide Short, DeltaFlags;
    LowFlagsAre(from, to);
    MidFlagsAre(from, to);
    ExtFlagsAre(from, to);
  }

  lemma LastPiecesAre(fmt: Format, from: Entity, to: Entity)
    ensures var f := DeltaFlags(from, to);
            && Piece(fmt, Scale, f, to) == When(from.scale != to.scale, [to.scale])
            && Piece(fmt, Alpha, f, to) == When(from.alpha != to.alpha, [to.alpha])
            && Piece(fmt, EffectsHigh, f, to)
               == When(from.effects / 0x100 != to.effects / 0x100, [to.effects / 0x100])
            && forall i :: Piece(fmt, Ignored(i), f, to) == []
  {
    hide Short, DeltaFlags;
    ExtFlagsAre(from, to);
  }

  lemma PlacesAre(fmt: Format, from: Entity, to: Entity)
    ensures var f := DeltaFlags(from, to);
            && Piece(fmt, Origin0, f, to) == When(from.origin0 != to.origin0, CoordBytes(fmt, to.origin0))
            && Piece(fmt, Angle0, f, to) == When(from.angles0 != to.angles0, AngleBytes(fmt, to.angles0))
            && Piece(fmt, Origin1, f, to) == When(from.origin1 != to.origin1, CoordBytes(fmt, to.origin1))
            && Piece(fmt, Angle1, f, to) == When(from.angles1 != to.angles1, AngleBytes(fmt, to.angles1))
            && Piece(fmt, Origin2, f, to) == When(from.origin2 != to.origin2, CoordBytes(fmt, to.origin2))
            && Piece(fmt, Angle2, f, to) == When(from.angles2 != to.angles2, AngleBytes(fmt, to.angles2))
  {
    hide CoordBytes, AngleBytes, DeltaFlags;
    LowFlagsAre(from, to);
    MidFlagsAre(from, to);
  }

  lemma OrderIs()
    ensures |ORDER| == 21
    ensures ORDER[0] == Model && ORDER[1] == Frame && ORDER[2] == Colormap && ORDER[3] == Skin
    ensures ORDER[4] == EffectsLow && ORDER[5] == Origin0 && ORDER[6] == Angle0 && ORDER[7] == Origin1
  {
  }

  lemma OrderGoesOn()
    ensures |ORDER| == 21
    ensures ORDER[8] == Angle1 && ORDER[9] == Origin2 && ORDER[10] == Angle2 && ORDER[11] == Scale
    ensures ORDER[12] == Alpha && ORDER[20] == EffectsHigh
  {
  }

  lemma IgnoredInOrder()
    ensures |ORDER| == 21 && forall k :: 13 <= k < 20 ==> ORDER[k].Ignored?
  {
  }

  lemma FirstInOrder(fmt: Format, f: Flags, to: Entity)
    requires |ORDER| == 21
    ensures WriteFields(fmt, ORDER[..13], f, to)
            == Piece(fmt, ORDER[0], f, to) + Piece(fmt, ORDER[1], f, to) + Piece(fmt, ORDER[2], f, to)
               + Piece(fmt, ORDER[3], f, to) + Piece(fmt, ORDER[4], f, to) + Piece(fmt, ORDER[5], f, to)
               + Piece(fmt, ORDER[6], f, to) + Piece(fmt, ORDER[7], f, to) + Piece(fmt, ORDER[8], f, to)
               + Piece(fmt, ORDER[9], f, to) + Piece(fmt, ORDER[10], f, to) + Piece(fmt, ORDER[11], f, to)
               + Piece(fmt, ORDER[12], f, to)
  {
    hide Piece, WriteFields, ORDER;
    NoFields(fmt, f, to);
    assert ORDER[..0] == [];
    assert [] + Piece(fmt, ORDER[0], f, to) == Piece(fmt, ORDER[0], f, to);
    PrefixPiece(fmt, 0, f, to);
    PrefixPiece(fmt, 1, f, to);
    PrefixPiece(fmt, 2, f, to);
    PrefixPiece(fmt, 3, f, to);
    PrefixPiece(fmt, 4, f, to);
    PrefixPiece(fmt, 5, f, to);
    PrefixPiece(fmt, 6, f, to);
    PrefixPiece(fmt, 7, f, to);
    PrefixPiece(fmt, 8, f, to);
    PrefixPiece(fmt, 9, f, to);
    PrefixPiece(fmt, 10, f, to);
    PrefixPiece(fmt, 11, f, to);
    PrefixPiece(fmt, 12, f, to);
  }

  lemma LastInOrder(fmt: Format, f: Flags, to: Entity)
    requires |ORDER| == 21 && forall k :: 13 <= k < 20 ==> Piece(fmt, ORDER[k], f, to) == []
    ensures WriteFields(fmt, ORDER, f, to) == WriteFields(fmt, ORDER[..13], f, to) + Piece(fmt, ORDER[20], f, to)
  {
    hide Piece, WriteFields, ORDER;
    var shown := WriteFields(fmt, ORDER[..13], f, to);
    assert shown + [] == shown;
    for k := 13 to 20
      invariant WriteFields(fmt, ORDER[..k], f, to) == shown
    {
      PrefixPiece(fmt, k, f, to);
    }
    PrefixPiece(fmt, 20, f, to);
    assert ORDER[..21] == ORDER;
  }

  lemma FieldsInOrder(fmt: Format, from: Entity, to: Entity)
    ensures WriteFields(fmt, ORDER, DeltaFlags(from, to), to) == FieldLayout(fmt, from, to)
  {
    hide DeltaFlags, Piece, WriteFields, CoordBytes, AngleBytes, ModelBytes, When, ORDER;
    var f := DeltaFlags(from, to);
    OrderIs();
    OrderGoesOn();
    IgnoredInOrder();
    PiecesAre(fmt, from, to);
    PlacesAre(fmt, from, to);
    LastPiecesAre(fmt, from, to);
    FirstInOrder(fmt, f, to);
    LastInOrder(fmt, f, to);
  }

  lemma NoFields(fmt: Format, f: Flags, to: Entity)
    ensures WriteFields(fmt, [], f, to) == []
  {
  }

  /** A record, byte by byte: the protocol's own flag word, extension bytes and order of the fields. */
  lemma RecordLayout(fmt: Format, num: nat, from: Entity, to: Entity, force: bool)
    requires num < 512
    ensures DeltaBytes(fmt, num, from, to, force)
            == if from == to && !force then []
               else Short(FirstWord(num, from, to)) + When(LowByte(from, to) > 0, [LowByte(from, to)])
                    + When(ExtByte(from, to) > 0, [ExtByte(from, to)])
                    + When(FarByte(from, to) > 0, [FarByte(from, to)])
                    + FieldLayout(fmt, from, to)
  {
    hide PackByte, LowByte, ExtByte, FarByte, FirstWord, WriteFields, FieldLayout, Short, DeltaFlags, NewLow, NewExt,
         NewFar;
    NoFlagsNoDifference(from, to);
    MidLayout(num, from, to);
    ExtensionLayout(from, to);
    ExtFlagsAre(from, to);
    LowFlagsAre(from, to);
    MidFlagsAre(from, to);
    BytesAreSent(from, to);
    FieldsInOrder(fmt, from, to);
  }

  // ---------- Round trip ----------

  /** Two states agree in the part a field carries. */
  predicate Same(field: Field, a: Entity, b: Entity) {
    match field
    case Model => a.modelindex == b.modelindex
    case Frame => a.frame == b.frame
    case Colormap => a.colormap == b.colormap
    case Skin => a.skinnum == b.skinnum
    case EffectsLow => a.effects % 0x100 == b.effects % 0x100
    case Origin0 => a.origin0 == b.origin0
    case Angle0 => a.angles0 == b.angles0
    case Origin1 => a.origin1 == b.origin1
    case Angle1 => a.angles1 == b.angles1
    case Origin2 => a.origin2 == b.origin2
    case Angle2 => a.angles2 == b.angles2
    case Scale => a.scale == b.scale
    case Alpha => a.alpha == b.alpha
    case Ignored(_) => true
    case EffectsHigh => a.effects / 0x100 == b.effects / 0x100
  }

  lemma SameEverywhere(a: Entity, b: Entity)
    requires forall i :: 0 <= i < |ORDER| ==> Same(ORDER[i], a, b)
    ensures a == b
  {
    assert Same(ORDER[0], a, b) && Same(ORDER[1], a, b) && Same(ORDER[2], a, b) && Same(ORDER[3], a, b);
    assert Same(ORDER[4], a, b) && Same(ORDER[20], a, b) && Same(ORDER[11], a, b) && Same(ORDER[12], a, b);
    assert Same(ORDER[5], a, b) && Same(ORDER[6], a, b) && Same(ORDER[7], a, b);
    assert Same(ORDER[8], a, b) && Same(ORDER[9], a, b) && Same(ORDER[10], a, b);
  }

  /** The model width the flags announce is wide enough for the index. */
  predicate ModelWidth(f: Flags, to: Entity) {
    if f.low.model then to.modelindex / 0x100 == (if f.ext.modelDbl then 1 else 0) else true
  }

  lemma ModelRoundTrip(fmt: Format, f: Flags, e: Entity, to: Entity, rest: seq<Byte>)
    requires ModelWidth(f, to)
    ensures ReadField(fmt, Model, f, e, FieldBytes(fmt, Model, f, to) + rest) == (e.(modelindex := to.modelindex), rest)
  {
    if f.low.model {
      ReadFront(to.modelindex % 0x100, rest);
    } else {
      hide Short, GetShort;
      ShortRoundTrip(to.modelindex, rest);
    }
  }

  /** Reading one field recovers the target in that field and leaves the others alone. */
  lemma FieldRoundTrip(fmt: Format, field: Field, f: Flags, e: Entity, to: Entity, rest: seq<Byte>)
    requires !field.Ignored? && (field.Model? ==> ModelWidth(f, to))
    ensures var (e', s') := ReadField(fmt, field, f, e, FieldBytes(fmt, field, f, to) + rest);
            && s' == rest && Same(field, e', Quantise(fmt, to))
            && forall g, x :: g != field && Same(g, e, x) ==> Same(g, e', x)
  {
    hide CoordBytes, CoordValue, CoordRest, AngleBytes, AngleValue, AngleRest, QCoord, QAngle;
    match field
    case Model => ModelRoundTrip(fmt, f, e, to, rest);
    case Origin0 => CoordRoundTrip(fmt, to.origin0, rest);
    case Origin1 => CoordRoundTrip(fmt, to.origin1, rest);
    case Origin2 => CoordRoundTrip(fmt, to.origin2, rest);
    case Angle0 => AngleRoundTrip(fmt, to.angles0, rest);
    case Angle1 => AngleRoundTrip(fmt, to.angles1, rest);
    case Angle2 => AngleRoundTrip(fmt, to.angles2, rest);
    case Ignored(_) =>
    case Frame | Colormap | Skin | EffectsLow | Scale | Alpha | EffectsHigh =>
      ReadFront(FieldBytes(fmt, field, f, to)[0], rest);
  }

  /** Without any flag the two states are equal, so a record that is not sent loses nothing. */
  lemma NoFlagsNoDifference(from: Entity, to: Entity)
    ensures AnyFlag(DeltaFlags(from, to)) <==> from != to
  {
    var f := DeltaFlags(from, to);
    var mid := f.mid.List();
    assert mid[0] == f.mid.origin1 && mid[1] == f.mid.origin2 && mid[2] == f.mid.origin3;
    assert mid[3] == f.mid.angle2 && mid[4] == f.mid.frame;
    if from == to {
      assert f == Flags(NO_LOW, MidFlags(false, false, false, false, false, false, false), NO_EXT, NO_FAR);
    }
  }

  /** Every field is sent exactly when it differs. */
  lemma PresentIffDifferent(fmt: Format, field: Field, from: Entity, to: Entity)
    ensures !field.Ignored? ==> (Present(field, DeltaFlags(from, to)) <==> !Same(field, from, to))
    ensures field.Ignored? ==> !Present(field, DeltaFlags(from, to))
    ensures from.modelindex != to.modelindex ==> ModelWidth(DeltaFlags(from, to), to)
    ensures Same(field, from, to) ==> Same(field, Quantise(fmt, from), Quantise(fmt, to))
  {
  }

  /** After the remaining fields are read, every field sent holds the target's quantised value. */
  lemma {:induction false} FieldsRoundTrip(fmt: Format, k: nat, from: Entity, to: Entity, e: Entity, rest: seq<Byte>)
    requires k <= |ORDER|
    requires forall i :: 0 <= i < k ==> Same(ORDER[i], e, Quantise(fmt, to))
    requires forall i :: k <= i < |ORDER| ==> Same(ORDER[i], e, Quantise(fmt, from))
    ensures var f := DeltaFlags(from, to);
            ReadFields(fmt, ORDER[k..], f, e, WriteFields(fmt, ORDER[k..], f, to) + rest)
            == (Quantise(fmt, to), rest)
    decreases |ORDER| - k
  {
    hide ReadField, FieldBytes, Present, Same, DeltaFlags, Quantise, ORDER;
    var f := DeltaFlags(from, to);
    var all := WriteFields(fmt, ORDER[k..], f, to) + rest;
    if k == |ORDER| {
      assert all == rest;
      SameEverywhere(e, Quantise(fmt, to));
    } else {
      assert ORDER[k..][1..] == ORDER[k + 1..];
      var tail := WriteFields(fmt, ORDER[k + 1..], f, to) + rest;
      FieldStep(fmt, k, from, to, e, tail);
      if Present(ORDER[k], f) {
        assert all == FieldBytes(fmt, ORDER[k], f, to) + tail;
        FieldsRoundTrip(fmt, k + 1, from, to, ReadField(fmt, ORDER[k], f, e, all).0, rest);
      } else {
        assert all == tail;
        FieldsRoundTrip(fmt, k + 1, from, to, e, rest);
      }
    }
  }

  lemma FieldStep(fmt: Format, k: nat, from: Entity, to: Entity, e: Entity, tail: seq<Byte>)
    requires k < |ORDER|
    requires forall i :: 0 <= i < k ==> Same(ORDER[i], e, Quantise(fmt, to))
    requires forall i :: k <= i < |ORDER| ==> Same(ORDER[i], e, Quantise(fmt, from))
    ensures var f := DeltaFlags(from, to); var field := ORDER[k];
            var (e', s') := if Present(field, f) then ReadField(fmt, field, f, e, FieldBytes(fmt, field, f, to) + tail)
                            else (e, tail);
            && s' == tail
            && (forall i :: 0 <= i < k + 1 ==> Same(ORDER[i], e', Quantise(fmt, to)))
            && (forall i :: k + 1 <= i < |ORDER| ==> Same(ORDER[i], e', Quantise(fmt, from)))
  {
    hide ReadField, FieldBytes, DeltaFlags, Quantise;
    var f := DeltaFlags(from, to);
    var field := ORDER[k];
    PresentIffDifferent(fmt, field, from, to);
    if Present(field, f) {
      FieldRoundTrip(fmt, field, f, e, to, tail);
      OrderDistinct(k);
    }
  }

  lemma OrderDistinct(k: nat)
    requires k < |ORDER|
    ensures forall i :: 0 <= i < |ORDER| && i != k ==> ORDER[i] != ORDER[k]
  {
  }

  /**
   * The codec's main property: for every pair of states and every entity number from 1 to 511, the
   * reader recovers the number, the whole flag word and the quantised target state, and stops exactly
   * where the record ends.  When nothing is written the two states are equal.
   */
  lemma DeltaRoundTrip(fmt: Format, num: nat, from: Entity, to: Entity, force: bool, rest: seq<Byte>)
    requires 0 < num < 512
    ensures var bytes := DeltaBytes(fmt, num, from, to, force);
            if from == to && !force then bytes == []
            else
              var h := ReadHeader(bytes + rest);
              && bytes != [] && h.num == num && h.flags == DeltaFlags(from, to)
              && ReadDelta(fmt, h.flags, Quantise(fmt, from), h.rest) == (Quantise(fmt, to), rest)
  {
    hide ReadHeader, HeaderBytes, ReadFields, WriteFields, DeltaFlags, Quantise;
    var f := DeltaFlags(from, to);
    NoFlagsNoDifference(from, to);
    if from != to || force {
      var fields := WriteFields(fmt, ORDER, f, to);
      assert DeltaBytes(fmt, num, from, to, force) + rest == HeaderBytes(num, f) + (fields + rest);
      DeltaFlagsDescribed(from, to);
      HeaderRoundTrip(num, f, fields + rest);
      assert ORDER[0..] == ORDER;
      FieldsRoundTrip(fmt, 0, from, to, Quantise(fmt, from), rest);
    }
  }
}
