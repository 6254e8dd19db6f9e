/**
 * The receiver of the paged start-up state (fteqtv/parse.c): what another proxy makes of the pages of
 * Prespawn.
 */
module PrespawnParse {
  import opened Msg
  import opened Delta
  import opened DeltaCodec
  import opened Prespawn

  const MAX_USERINFO: nat := 1024

  /** The receiver's state; static sounds and entities up to their counts. */
  datatype MapCopy = MapCopy(
    players: seq<Player>, baselines: seq<Entity>, lightstyles: seq<seq<Byte>>, sounds: seq<Sound>,
    statics: seq<Entity>)

  ghost predicate SizedCopy(c: MapCopy) {
    && |c.players| == MAX_CLIENTS && |c.baselines| == MAX_ENTITIES && |c.lightstyles| == MAX_LIGHTSTYLES
    && |c.sounds| <= MAX_STATICSOUNDS && |c.statics| <= MAX_STATICENTITIES
  }

  /** The strings of the state as the sender's own buffers hold them. */
  ghost predicate Storable(m: MapState) {
    && Sized(m) && NoNul(m.ownName) && |m.ownName| < MAX_USERINFO
    && (forall i :: 0 <= i < MAX_CLIENTS ==> NoNul(m.players[i].userinfo) && |m.players[i].userinfo| < MAX_USERINFO)
    && (forall i :: 0 <= i < MAX_LIGHTSTYLES ==> NoNul(m.lightstyles[i]) && |m.lightstyles[i]| < MAX_QPATH)
  }

  // ---------- The parser ----------

  /** The next element of a list with a count; the last one is overwritten when the list is full. */
  function Grown<T>(s: seq<T>, x: T, max: nat): seq<T>
    requires max > 0
  {
    if |s| == max then s[..max - 1] + [x] else s + [x]
  }

  function SetPlayer(c: MapCopy, i: nat, p: Player): MapCopy {
    if i < |c.players| then c.(players := c.players[i := p]) else c
  }

  function PlayerAt(c: MapCopy, i: nat): Player {
    if i < |c.players| then c.players[i] else Player([], 0, 0, 0)
  }

  function ParseSound(fmt: Format, s: seq<Byte>): (Sound, seq<Byte>) {
    var s1 := CoordRest(fmt, s);
    var s2 := CoordRest(fmt, s1);
    var s3 := CoordRest(fmt, s2);
    (Sound(First(s3), First(Rest(s3)), First(Rest(Rest(s3))), CoordValue(fmt, s), CoordValue(fmt, s1),
           CoordValue(fmt, s2)),
     Rest(Rest(Rest(s3))))
  }

  function ParseInfo(c: MapCopy, s: seq<Byte>): (MapCopy, seq<Byte>) {
    var i, info := First(s), BoundedString(RestLong(Rest(s)), MAX_USERINFO);
    (SetPlayer(c, i, PlayerAt(c, i).(userinfo := info.0)), info.1)
  }

  /** One command after its command byte: the new state and what follows; `None` for other commands. */
  function ParseCommand(fmt: Format, c: MapCopy, svc: Byte, s: seq<Byte>): Option<(MapCopy, seq<Byte>)> {
    var i, t := First(s), Rest(s);
    match svc
    case 40 =>
      Some(ParseInfo(c, s))
    case 14 => Some((SetPlayer(c, i, PlayerAt(c, i).(frags := Signed(GetShort(t)))), RestShort(t)))
    case 36 => Some((SetPlayer(c, i, PlayerAt(c, i).(ping := GetShort(t))), RestShort(t)))
    case 53 =>
      var j := i as int % MAX_CLIENTS;
      Some((SetPlayer(c, j, PlayerAt(c, j).(packetloss := First(t))), Rest(t)))
    case 22 =>
      var num, e := GetShort(s), ReadBaseline(fmt, RestShort(s));
      if num < |c.baselines| then Some((c.(baselines := c.baselines[num := e.0]), e.1)) else Some((c, []))
    case 12 =>
      var name := BoundedString(t, MAX_QPATH);
      Some((if i as int < |c.lightstyles| then c.(lightstyles := c.lightstyles[i := name.0]) else c, name.1))
    case 29 =>
      var x := ParseSound(fmt, s);
      Some((c.(sounds := Grown(c.sounds, x.0, MAX_STATICSOUNDS)), x.1))
    case 20 =>
      var e := ReadBaseline(fmt, s);
      Some((c.(statics := Grown(c.statics, e.0, MAX_STATICENTITIES)), e.1))
    case _ => None
  }

  /** ParseMessage for the commands of the start-up state. */
  function ParseCommands(fmt: Format, c: MapCopy, s: seq<Byte>): Option<MapCopy>
    decreases |s|
  {
    if s == [] then Some(c)
    else
      var r := ParseCommand(fmt, c, s[0], s[1..]);
      if r.None? || |r.value.1| >= |s| then None else ParseCommands(fmt, r.value.0, r.value.1)
  }

  /** The pages, each a message of its own. */
  function ParsePages(fmt: Format, c: MapCopy, items: seq<Item>, n: nat): Option<MapCopy> {
    if n == 0 then Some(c)
    else
      var was := ParsePages(fmt, c, items, n - 1);
      if was.None? then None
      else ParseCommands(fmt, was.value, All(items[Cursor(items, n - 1)..Cursor(items, n)]))
  }

  // ---------- What arrives ----------

  /** A player as it arrives: frags as a signed and ping as an unsigned short. */
  function PlayerGot(m: MapState, i: nat, thisplayer: int): Player
    requires i < |m.players|
  {
    if i == thisplayer && !m.played then Player(m.ownName, 9999, 0, 0)
    else
      var p := m.players[i];
      Player(p.userinfo, Signed(Word(p.frags)), Word(p.ping), p.packetloss)
  }

  /** A baseline or static entity as it arrives. */
  function EntityGot(fmt: Format, e: Entity): Entity {
    Quantise(fmt, e.(modelindex := e.modelindex % 0x100, effects := 0, alpha := 0, scale := 0))
  }

  function SoundGot(fmt: Format, s: Sound): Sound {
    Sound(s.soundindex % 0x100, s.volume, s.attenuation, QCoord(fmt, s.x), QCoord(fmt, s.y), QCoord(fmt, s.z))
  }

  /** What arrives of a baseline or static entity with a model index of one byte: all but effects, alpha and scale. */
  lemma EntityArrives(fmt: Format, e: Entity)
    ensures var g := EntityGot(fmt, e);
            && g.frame == e.frame && g.colormap == e.colormap && g.skinnum == e.skinnum
            && (g.modelindex == e.modelindex <==> e.modelindex < 0x100)
            && g.effects == 0 && g.alpha == 0 && g.scale == 0
            && g.origin0 == QCoord(fmt, e.origin0) && g.origin1 == QCoord(fmt, e.origin1)
            && g.origin2 == QCoord(fmt, e.origin2)
            && NearAngle(fmt, e.angles0, g.angles0) && NearAngle(fmt, e.angles1, g.angles1)
            && NearAngle(fmt, e.angles2, g.angles2)
  {
    hide QCoord, QAngle, NearAngle;
    QuantiseKeeps(fmt, e.(modelindex := e.modelindex % 0x100, effects := 0, alpha := 0, scale := 0));
  }

  /** The static sounds that arrive are those of the slots in use, each in its turn. */
  lemma {:induction false} SoundArrives(m: MapState, i: nat, n: nat)
    requires i < n <= |m.sounds| && m.sounds[i].soundindex != 0
    ensures var s, k := m.sounds[i], |SoundsGot(m, i)|;
            && k < |SoundsGot(m, n)|
            && SoundsGot(m, n)[k] == Sound(s.soundindex % 0x100, s.volume, s.attenuation, QCoord(m.fmt, s.x),
                                           QCoord(m.fmt, s.y), QCoord(m.fmt, s.z))
            && (i + 1 == n ==> |SoundsGot(m, n)| == k + 1)
            && (i + 1 < n && m.sounds[n - 1].soundindex == 0 ==> SoundsGot(m, n) == SoundsGot(m, n - 1))
    decreases n
  {
    hide QCoord;
    if i + 1 < n {
      SoundArrives(m, i, n - 1);
    }
  }

  /** So are the static entities. */
  lemma {:induction false} StaticArrives(m: MapState, i: nat, n: nat)
    requires i < n <= |m.statics| && m.statics[i].modelindex != 0
    ensures var k := |StaticsGot(m, i)|;
            && k < |StaticsGot(m, n)| && StaticsGot(m, n)[k] == EntityGot(m.fmt, m.statics[i])
            && (i + 1 == n ==> |StaticsGot(m, n)| == k + 1)
            && (i + 1 < n && m.statics[n - 1].modelindex == 0 ==> StaticsGot(m, n) == StaticsGot(m, n - 1))
    decreases n
  {
    hide EntityGot;
    if i + 1 < n {
      StaticArrives(m, i, n - 1);
    }
  }

  /** The first `n` static sounds, without the free slots. */
  function SoundsGot(m: MapState, n: nat): (r: seq<Sound>)
    requires n <= |m.sounds|
    ensures |r| <= n
  {
    if n == 0 then []
    else SoundsGot(m, n - 1) + if m.sounds[n - 1].soundindex != 0 then [SoundGot(m.fmt, m.sounds[n - 1])] else []
  }

  function StaticsGot(m: MapState, n: nat): (r: seq<Entity>)
    requires n <= |m.statics|
    ensures |r| <= n
  {
    if n == 0 then []
    else StaticsGot(m, n - 1) + if m.statics[n - 1].modelindex != 0 then [EntityGot(m.fmt, m.statics[n - 1])] else []
  }

  function Within(k: nat, section: nat, count: nat): (n: nat)
    ensures n <= count
  {
    if k < section then 0 else if k - section < count then k - section else count
  }

  /** The receiver's state after all entries before `k`, when it was `c` at the start. */
  function CopyAt(m: MapState, thisplayer: int, c: MapCopy, k: nat): MapCopy
    requires Sized(m) && SizedCopy(c)
  {
    MapCopy(
      seq(MAX_CLIENTS, i requires 0 <= i < MAX_CLIENTS => if i < k then PlayerGot(m, i, thisplayer) else c.players[i]),
      seq(MAX_ENTITIES, i requires 0 <= i < MAX_ENTITIES =>
        if 0 < i < k - BASELINES && m.baselines[i].modelindex != 0 then EntityGot(m.fmt, m.baselines[i])
        else c.baselines[i]),
      seq(MAX_LIGHTSTYLES, i requires 0 <= i < MAX_LIGHTSTYLES =>
        if i < k - LIGHTS then m.lightstyles[i] else c.lightstyles[i]),
      SoundsGot(m, Within(k, SOUNDS, MAX_STATICSOUNDS)),
      StaticsGot(m, Within(k, STATICS, MAX_STATICENTITIES)))
  }

  // ---------- One command ----------

  /** A command that is parsed leaves the rest of the message to the next ones. */
  lemma CommandParsed(fmt: Format, c: MapCopy, svc: Byte, body: seq<Byte>, rest: seq<Byte>)
    requires ParseCommand(fmt, c, svc, body + rest).Some?
    requires ParseCommand(fmt, c, svc, body + rest).value.1 == rest
    ensures ParseCommands(fmt, c, [svc] + body + rest)
            == ParseCommands(fmt, ParseCommand(fmt, c, svc, body + rest).value.0, rest)
  {
    hide ParseCommand;
    var s := [svc] + body + rest;
    assert s[0] == svc && s[1..] == body + rest;
  }

  lemma InfoParsed(fmt: Format, c: MapCopy, i: nat, info: seq<Byte>, rest: seq<Byte>)
    requires i < MAX_CLIENTS == |c.players| && NoNul(info) && |info| < MAX_USERINFO
    ensures ParseCommands(fmt, c, [40, i % 0x100] + Long(i + 1) + info + [0] + rest)
            == ParseCommands(fmt, SetPlayer(c, i, c.players[i].(userinfo := info)), rest)
  {
    hide ParseInfo, ParseCommands, Long, NoNul;
    var body := [i % 0x100] + Long(i + 1) + info + [0];
    InfoRead(c, i, info, rest, [i] + (Long(i + 1) + (info + [0] + rest)));
    assert body + rest == [i] + (Long(i + 1) + (info + [0] + rest));
    assert [40, i % 0x100] + Long(i + 1) + info + [0] + rest == [40] + body + rest;
    CommandParsed(fmt, c, 40, body, rest);
  }

  lemma InfoRead(c: MapCopy, i: Byte, info: seq<Byte>, rest: seq<Byte>, s: seq<Byte>)
    requires i as int < MAX_CLIENTS == |c.players| && NoNul(info) && |info| < MAX_USERINFO
    requires s == [i] + (Long(i + 1) + (info + [0] + rest))
    ensures ParseInfo(c, s) == (SetPlayer(c, i, c.players[i].(userinfo := info)), rest)
  {
    hide Long, RestLong, BoundedString, NoNul, First;
    var tail := info + [0] + rest;
    FrontOf(i, Long(i + 1) + tail);
    LongRoundTrip(i + 1, tail);
    FieldReadBack(info, rest, MAX_USERINFO);
  }

  lemma FrontOf(b: Byte, t: seq<Byte>)
    ensures First([b] + t) == b && Rest([b] + t) == t
  {
  }

  lemma NumberParsed(fmt: Format, c: MapCopy, svc: Byte, i: nat, n: nat, rest: seq<Byte>)
    requires i < MAX_CLIENTS == |c.players| && n < 0x1_0000 && (svc == 14 || svc == 36)
    ensures ParseCommands(fmt, c, [svc, i % 0x100] + Short(n) + rest)
            == ParseCommands(fmt, SetPlayer(c, i, if svc == 14 then c.players[i].(frags := Signed(n))
                                                  else c.players[i].(ping := n)), rest)
  {
    hide Short, ParseCommand, ParseCommands, Signed;
    var body := [i % 0x100] + Short(n);
    NumberRead(fmt, c, svc, i, n, rest);
    assert body + rest == [i] + (Short(n) + rest);
    assert [svc, i % 0x100] + Short(n) + rest == [svc] + body + rest;
    CommandParsed(fmt, c, svc, body, rest);
  }

  lemma NumberRead(fmt: Format, c: MapCopy, svc: Byte, i: Byte, n: nat, rest: seq<Byte>)
    requires i as int < MAX_CLIENTS == |c.players| && n < 0x1_0000 && (svc == 14 || svc == 36)
    ensures ParseCommand(fmt, c, svc, [i] + (Short(n) + rest))
            == Some((SetPlayer(c, i, if svc == 14 then c.players[i].(frags := Signed(n))
                                     else c.players[i].(ping := n)), rest))
  {
    hide Short, GetShort, RestShort, First, Rest, Signed, ParseCommands;
    FrontOf(i, Short(n) + rest);
    ShortRoundTrip(n, rest);
    assert i as int % MAX_CLIENTS == i as int;
  }

  lemma LossParsed(fmt: Format, c: MapCopy, i: nat, loss: Byte, rest: seq<Byte>)
    requires i < MAX_CLIENTS == |c.players|
    ensures ParseCommands(fmt, c, [53, i % 0x100, loss] + rest)
            == ParseCommands(fmt, SetPlayer(c, i, c.players[i].(packetloss := loss)), rest)
  {
    hide ParseCommands;
    LossRead(fmt, c, i, loss, rest);
    assert [53, i % 0x100, loss] + rest == [53] + [i, loss] + rest;
    CommandParsed(fmt, c, 53, [i, loss], rest);
  }

  lemma LossRead(fmt: Format, c: MapCopy, i: Byte, loss: Byte, rest: seq<Byte>)
    requires i as int < MAX_CLIENTS == |c.players|
    ensures ParseCommand(fmt, c, 53, [i, loss] + rest)
            == Some((SetPlayer(c, i, c.players[i].(packetloss := loss)), rest))
  {
    var s := [i, loss] + rest;
    assert Rest(s) == [loss] + rest && Rest(Rest(s)) == rest;
    assert i as int % MAX_CLIENTS == i as int;
  }

  /** The four commands of a player. */
  lemma PlayerParsed(fmt: Format, c: MapCopy, i: nat, info: seq<Byte>, frags: int, ping: int, loss: Byte,
                     rest: seq<Byte>)
    requires i < MAX_CLIENTS == |c.players| && NoNul(info) && |info| < MAX_USERINFO
    ensures ParseCommands(fmt, c, PlayerBytes(i, info, frags, ping, loss) + rest)
            == ParseCommands(fmt, SetPlayer(c, i, Player(info, Signed(Word(frags)), Word(ping), loss)), rest)
  {
    hide Long, Short, ParseCommands, Signed, Word;
    var r3 := [53, i % 0x100, loss] + rest;
    var r2 := [36, i % 0x100] + Short(Word(ping)) + r3;
    var r1 := [14, i % 0x100] + Short(Word(frags)) + r2;
    assert PlayerBytes(i, info, frags, ping, loss) + rest == [40, i % 0x100] + Long(i + 1) + info + [0] + r1;
    var c1 := SetPlayer(c, i, c.players[i].(userinfo := info));
    var c2 := SetPlayer(c1, i, c1.players[i].(frags := Signed(Word(frags))));
    var c3 := SetPlayer(c2, i, c2.players[i].(ping := Word(ping)));
    InfoParsed(fmt, c, i, info, r1);
    NumberParsed(fmt, c1, 14, i, Word(frags), r2);
    NumberParsed(fmt, c2, 36, i, Word(ping), r3);
    LossParsed(fmt, c3, i, loss, rest);
    assert SetPlayer(c3, i, c3.players[i].(packetloss := loss))
           == SetPlayer(c, i, Player(info, Signed(Word(frags)), Word(ping), loss));
  }

  lemma StateParsed(fmt: Format, e: Entity, rest: seq<Byte>)
    ensures ReadBaseline(fmt, BaselineBytes(fmt, e) + rest) == (EntityGot(fmt, e), rest)
  {
    hide BaselineBytes, ReadBaseline;
    var cut := e.(modelindex := e.modelindex % 0x100, effects := 0, alpha := 0, scale := 0);
    SameBytes(fmt, e, cut);
    BaselineRoundTrip(fmt, cut, rest);
  }

  lemma SameBytes(fmt: Format, e: Entity, cut: Entity)
    requires cut == e.(modelindex := e.modelindex % 0x100, effects := 0, alpha := 0, scale := 0)
    ensures BaselineBytes(fmt, cut) == BaselineBytes(fmt, e)
  {
  }

  lemma BaselineParsed(fmt: Format, c: MapCopy, i: nat, e: Entity, rest: seq<Byte>)
    requires i < MAX_ENTITIES == |c.baselines|
    ensures ParseCommands(fmt, c, [22] + Short(i) + BaselineBytes(fmt, e) + rest)
            == ParseCommands(fmt, c.(baselines := c.baselines[i := EntityGot(fmt, e)]), rest)
  {
    hide Short, GetShort, RestShort, ReadBaseline, BaselineBytes, EntityGot, ParseCommands;
    var body := Short(i) + BaselineBytes(fmt, e);
    assert body + rest == Short(i) + (BaselineBytes(fmt, e) + rest);
    ShortRoundTrip(i, BaselineBytes(fmt, e) + rest);
    StateParsed(fmt, e, rest);
    assert [22] + Short(i) + BaselineBytes(fmt, e) + rest == [22] + body + rest;
    CommandParsed(fmt, c, 22, body, rest);
  }

  lemma LightParsed(fmt: Format, c: MapCopy, i: nat, name: seq<Byte>, rest: seq<Byte>)
    requires i < MAX_LIGHTSTYLES == |c.lightstyles| && NoNul(name) && |name| < MAX_QPATH
    ensures ParseCommands(fmt, c, [12, i % 0x100] + name + [0] + rest)
            == ParseCommands(fmt, c.(lightstyles := c.lightstyles[i := name]), rest)
  {
    hide BoundedString, ParseCommands;
    var body := [i % 0x100] + name + [0];
    assert body + rest == [i % 0x100] + (name + [0] + rest);
    assert Rest(body + rest) == name + [0] + rest;
    FieldReadBack(name, rest, MAX_QPATH);
    assert [12, i % 0x100] + name + [0] + rest == [12] + body + rest;
    CommandParsed(fmt, c, 12, body, rest);
  }

  lemma SoundRead(fmt: Format, s: Sound, body: seq<Byte>, rest: seq<Byte>)
    requires body == CoordBytes(fmt, s.x) + CoordBytes(fmt, s.y) + CoordBytes(fmt, s.z) + SoundBytes(s)
    ensures ParseSound(fmt, body + rest) == (SoundGot(fmt, s), rest)
  {
    hide CoordBytes, CoordValue, CoordRest, QCoord;
    var s3 := SoundBytes(s) + rest;
    var s2 := CoordBytes(fmt, s.z) + s3;
    var s1 := CoordBytes(fmt, s.y) + s2;
    assert body + rest == CoordBytes(fmt, s.x) + s1;
    CoordRoundTrip(fmt, s.x, s1);
    CoordRoundTrip(fmt, s.y, s2);
    CoordRoundTrip(fmt, s.z, s3);
    assert Rest(s3) == [s.volume, s.attenuation] + rest && Rest(Rest(s3)) == [s.attenuation] + rest;
    assert Rest(Rest(Rest(s3))) == rest;
  }

  lemma SoundParsed(fmt: Format, c: MapCopy, s: Sound, rest: seq<Byte>)
    requires |c.sounds| < MAX_STATICSOUNDS
    ensures ParseCommands(fmt, c, [29] + CoordBytes(fmt, s.x) + CoordBytes(fmt, s.y) + CoordBytes(fmt, s.z)
                                  + SoundBytes(s) + rest)
            == ParseCommands(fmt, c.(sounds := c.sounds + [SoundGot(fmt, s)]), rest)
  {
    hide CoordBytes, SoundBytes, ParseSound, SoundGot, ParseCommands;
    var body := CoordBytes(fmt, s.x) + CoordBytes(fmt, s.y) + CoordBytes(fmt, s.z) + SoundBytes(s);
    SoundRead(fmt, s, body, rest);
    assert [29] + CoordBytes(fmt, s.x) + CoordBytes(fmt, s.y) + CoordBytes(fmt, s.z) + SoundBytes(s) + rest
           == [29] + body + rest;
    CommandParsed(fmt, c, 29, body, rest);
  }

  lemma StaticParsed(fmt: Format, c: MapCopy, e: Entity, rest: seq<Byte>)
    requires |c.statics| < MAX_STATICENTITIES
    ensures ParseCommands(fmt, c, [20] + BaselineBytes(fmt, e) + rest)
            == ParseCommands(fmt, c.(statics := c.statics + [EntityGot(fmt, e)]), rest)
  {
    hide ReadBaseline, BaselineBytes, EntityGot, ParseCommands;
    StateParsed(fmt, e, rest);
    CommandParsed(fmt, c, 20, BaselineBytes(fmt, e), rest);
  }

  // ---------- One entry ----------

  /** Parsing an entry takes the receiver from one copy to the next. */
  lemma EntryParsed(m: MapState, thisplayer: int, c: MapCopy, k: nat, rest: seq<Byte>)
    requires Storable(m) && SizedCopy(c) && k < TOTAL
    ensures ParseCommands(m.fmt, CopyAt(m, thisplayer, c, k), ItemAt(m, thisplayer, k).bytes + rest)
            == ParseCommands(m.fmt, CopyAt(m, thisplayer, c, k + 1), rest)
  {
    hide ParseCommands, PlayerBytes, BaselineBytes, CoordBytes, SoundBytes, Short, SoundsGot, StaticsGot, EntityGot,
         SoundGot, Signed, Word;
    var was, now := CopyAt(m, thisplayer, c, k), CopyAt(m, thisplayer, c, k + 1);
    if k < BASELINES {
      var p := m.players[k];
      assert now == SetPlayer(was, k, PlayerGot(m, k, thisplayer));
      if k == thisplayer && !m.played {
        Spectator();
        PlayerParsed(m.fmt, was, k, m.ownName, 9999, 0, 0, rest);
      } else {
        PlayerParsed(m.fmt, was, k, p.userinfo, p.frags, p.ping, p.packetloss, rest);
      }
    } else if k == BASELINES {
      assert now == was && [] + rest == rest;
    } else if k < LIGHTS {
      BaselineEntry(m, thisplayer, c, k, rest);
    } else if k < SOUNDS {
      var i := k - LIGHTS;
      assert now == was.(lightstyles := was.lightstyles[i := m.lightstyles[i]]);
      LightParsed(m.fmt, was, i, m.lightstyles[i], rest);
    } else if k < STATICS {
      SoundEntry(m, thisplayer, c, k, rest);
    } else {
      StaticEntry(m, thisplayer, c, k, rest);
    }
  }

  lemma Spectator()
    ensures Signed(Word(9999)) == 9999 && Word(0) == 0
  {
  }

  lemma BaselineEntry(m: MapState, thisplayer: int, c: MapCopy, k: nat, rest: seq<Byte>)
    requires Storable(m) && SizedCopy(c) && BASELINES < k < LIGHTS
    ensures ParseCommands(m.fmt, CopyAt(m, thisplayer, c, k), BaselineItem(m, k - BASELINES).bytes + rest)
            == ParseCommands(m.fmt, CopyAt(m, thisplayer, c, k + 1), rest)
  {
    hide ParseCommands, BaselineBytes, Short, SoundsGot, StaticsGot, EntityGot, PlayerGot;
    var was, now := CopyAt(m, thisplayer, c, k), CopyAt(m, thisplayer, c, k + 1);
    var i := k - BASELINES;
    var e := m.baselines[i];
    if e.modelindex != 0 {
      assert now == was.(baselines := was.baselines[i := EntityGot(m.fmt, e)]);
      BaselineParsed(m.fmt, was, i, e, rest);
    } else {
      assert now == was && [] + rest == rest;
    }
  }

  lemma SoundEntry(m: MapState, thisplayer: int, c: MapCopy, k: nat, rest: seq<Byte>)
    requires Storable(m) && SizedCopy(c) && SOUNDS <= k < STATICS
    ensures ParseCommands(m.fmt, CopyAt(m, thisplayer, c, k), SoundItem(m, k - SOUNDS).bytes + rest)
            == ParseCommands(m.fmt, CopyAt(m, thisplayer, c, k + 1), rest)
  {
    hide ParseCommands, CoordBytes, SoundBytes, StaticsGot, SoundGot, PlayerGot, EntityGot;
    var was, now := CopyAt(m, thisplayer, c, k), CopyAt(m, thisplayer, c, k + 1);
    var s := m.sounds[k - SOUNDS];
    if s.soundindex != 0 {
      assert now == was.(sounds := was.sounds + [SoundGot(m.fmt, s)]);
      SoundParsed(m.fmt, was, s, rest);
    } else {
      assert now == was && [] + rest == rest;
    }
  }

  lemma StaticEntry(m: MapState, thisplayer: int, c: MapCopy, k: nat, rest: seq<Byte>)
    requires Storable(m) && SizedCopy(c) && STATICS <= k < TOTAL
    ensures ParseCommands(m.fmt, CopyAt(m, thisplayer, c, k), StaticItem(m, k - STATICS).bytes + rest)
            == ParseCommands(m.fmt, CopyAt(m, thisplayer, c, k + 1), rest)
  {
    hide ParseCommands, BaselineBytes, SoundsGot, EntityGot, PlayerGot;
    var was, now := CopyAt(m, thisplayer, c, k), CopyAt(m, thisplayer, c, k + 1);
    var e := m.statics[k - STATICS];
    if e.modelindex != 0 {
      assert now == was.(statics := was.statics + [EntityGot(m.fmt, e)]);
      StaticParsed(m.fmt, was, e, rest);
    } else {
      assert now == was && [] + rest == rest;
    }
  }

  // ---------- Pages ----------

  lemma IsSized(m: MapState)
    requires Storable(m)
    ensures Sized(m)
  {
  }

  /** A page takes the receiver from the copy at its first entry to the copy at its last. */
  lemma {:induction false} PageParsed(m: MapState, thisplayer: int, c: MapCopy, a: nat, b: nat)
    requires Storable(m) && SizedCopy(c) && a <= b <= TOTAL
    ensures ParseCommands(m.fmt, CopyAt(m, thisplayer, c, a), All(Items(m, thisplayer)[a..b]))
            == Some(CopyAt(m, thisplayer, c, b))
    decreases b - a
  {
    hide ItemAt, CopyAt, ParseCommand, Storable;
    IsSized(m);
    var items := Items(m, thisplayer);
    if a == b {
      assert items[a..b] == [];
    } else {
      EntryParsed(m, thisplayer, c, a, All(items[a + 1..b]));
      assert items[a..b][0] == ItemAt(m, thisplayer, a) && items[a..b][1..] == items[a + 1..b];
      PageParsed(m, thisplayer, c, a + 1, b);
    }
  }

  /** The receiver's lists at the start of a map. */
  ghost predicate Cleared(c: MapCopy) {
    SizedCopy(c) && c.sounds == [] && c.statics == []
  }

  lemma CopyAtStart(m: MapState, thisplayer: int, c: MapCopy)
    requires Sized(m) && Cleared(c)
    ensures CopyAt(m, thisplayer, c, 0) == c
  {
    var d := CopyAt(m, thisplayer, c, 0);
    assert d.players == c.players && d.baselines == c.baselines && d.lightstyles == c.lightstyles;
  }

  // ---------- Main results ----------

  /** After any number of pages the receiver has exactly the entries before the cursor. */
  lemma {:induction false} PagesParsed(m: MapState, thisplayer: int, c: MapCopy, n: nat)
    requires Storable(m) && Cleared(c)
    ensures var items := Items(m, thisplayer);
            ParsePages(m.fmt, c, items, n) == Some(CopyAt(m, thisplayer, c, Cursor(items, n)))
  {
    hide ParseCommands, CopyAt, Items, Storable, Stop, All;
    IsSized(m);
    var items := Items(m, thisplayer);
    if n == 0 {
      CopyAtStart(m, thisplayer, c);
    } else {
      PagesParsed(m, thisplayer, c, n - 1);
      CursorGrows(items, n);
      PageParsed(m, thisplayer, c, Cursor(items, n - 1), Cursor(items, n));
    }
  }

  lemma CursorGrows(items: seq<Item>, n: nat)
    requires n > 0
    ensures Cursor(items, n - 1) <= Cursor(items, n) <= |items|
  {
  }

  /**
   * Once the loop of Net_SendConnectionMVD has ended, the receiver has the players, with the proxy's own
   * spectator in its slot, the light styles, the baselines that are in use, but not the one of entity 0, and the
   * static sounds and entities in order and without the free slots; all as the wire carries them. A player is
   * unchanged if and only if its numbers fit 16 bits, unless the spectator has its slot.
   */
  lemma MapArrives(m: MapState, thisplayer: int, c: MapCopy, n: nat)
    requires Storable(m) && Cleared(c) && Cursor(Items(m, thisplayer), n) == TOTAL
    ensures var r := ParsePages(m.fmt, c, Items(m, thisplayer), n);
            && r.Some? && SizedCopy(r.value)
            && (forall i :: 0 <= i < MAX_CLIENTS ==>
                  if i == thisplayer && !m.played then r.value.players[i] == Player(m.ownName, 9999, 0, 0)
                  else var p, q := m.players[i], r.value.players[i];
                       && q == Player(p.userinfo, Signed(Word(p.frags)), Word(p.ping), p.packetloss)
                       && (q == p <==> -0x8000 <= p.frags < 0x8000 && 0 <= p.ping < 0x1_0000))
            && (forall i :: 0 <= i < MAX_ENTITIES ==>
                  r.value.baselines[i]
                  == if i > 0 && m.baselines[i].modelindex != 0 then EntityGot(m.fmt, m.baselines[i])
                     else c.baselines[i])
            && r.value.lightstyles == m.lightstyles
            && r.value.sounds == SoundsGot(m, MAX_STATICSOUNDS) && r.value.statics == StaticsGot(m, MAX_STATICENTITIES)
  {
    hide Cursor, ParsePages, Items, EntityGot, SoundsGot, StaticsGot;
    PagesParsed(m, thisplayer, c, n);
  }
}
