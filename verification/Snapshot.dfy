/**
 * The snapshot with which a downstream proxy joins (fteqtv/forward.c): the messages of Net_SendConnectionMVD,
 * and what the proxy at the other end makes of them. The messages with the server data and with the
 * players are blocks of bytes, which it takes as they are.
 */
module Snapshot {
  import opened Msg
  import opened Delta
  import opened PacketEntities
  import opened FrameCodec
  import opened ProxyBuffer
  import opened StreamInput
  import opened PrespawnParse
  import DeltaCodec
  import Prespawn
  import ProxyFeed
  import NameList

  const SVC_STUFFTEXT: Byte := 9
  /** The command that makes viewers look for skins. */
  const SKINS: seq<Byte> := [SVC_STUFFTEXT, 115, 107, 105, 110, 115, 10, 0]
  const SVC_SERVERDATA: Byte := 11
  const SVC_PLAYERINFO: Byte := 42
  const SVC_MODELLIST: Byte := 45
  const SVC_SOUNDLIST: Byte := 46
  const DEM_READ: Byte := 1

  /** The size of the buffer for messages. */
  const ROOM: nat := 8 * MAX_MSGLEN
  /** The slot of the proxy's own spectator. */
  const OWN_SLOT: nat := 31

  /** The state that a proxy has parsed. */
  datatype Known = Known(
    serverdata: seq<Byte>, sounds: NameList.Names, models: NameList.Names, state: Prespawn.MapState,
    players: seq<Byte>, ents: Frame)

  // ---------- The messages ----------

  /**
   * The pages of a list in the first `n` turns of its loop, with the command byte.  A list that ends does so in
   * as many turns as it has names.
   */
  function ListBodies(svc: Byte, list: NameList.Names, n: nat): seq<seq<Byte>>
    requires |list| == NameList.MAX_LIST
  {
    if n == 0 then []
    else
      var c := NameList.CursorAfter(list, n - 1);
      ListBodies(svc, list, n - 1) + if c < 0 then [] else [[svc] + NameList.ListPage(list, c, 1).0]
  }

  function PageBodies(items: seq<Prespawn.Item>, n: nat): seq<seq<Byte>> {
    if n == 0 then []
    else
      var c := Prespawn.Cursor(items, n - 1);
      PageBodies(items, n - 1)
      + if c == |items| then [] else [Prespawn.All(items[c..Prespawn.Cursor(items, n)])]
  }

  function EntsBody(k: Known): seq<Byte> {
    Clip([SVC_PACKETENTITIES] + (InitialRecords(k.state.fmt, k.state.baselines, k.ents) + Short(0)), ROOM)
  }

  /** The messages before the first flush, and those after it. */
  function FirstBodies(k: Known): seq<seq<Byte>>
    requires |k.sounds| == |k.models| == NameList.MAX_LIST
  {
    [k.serverdata] + ListBodies(SVC_SOUNDLIST, k.sounds, NameList.MAX_LIST)
    + ListBodies(SVC_MODELLIST, k.models, NameList.MAX_LIST)
  }

  function LastBodies(k: Known): seq<seq<Byte>>
    requires Prespawn.Sized(k.state)
  {
    PageBodies(Prespawn.Items(k.state, OWN_SLOT), Prespawn.TOTAL) + [k.players, EntsBody(k), SKINS]
  }

  function Bodies(k: Known): seq<seq<Byte>>
    requires |k.sounds| == |k.models| == NameList.MAX_LIST && Prespawn.Sized(k.state)
  {
    FirstBodies(k) + LastBodies(k)
  }

  /** Prox_SendMessage for a message that is meant for everyone. */
  function Header(body: seq<Byte>): seq<Byte> {
    MessageHeader(DEM_READ, |body|, 0xffff_ffff)
  }

  function Messages(bodies: seq<seq<Byte>>): seq<ProxyEvent> {
    seq(|bodies|, i requires 0 <= i < |bodies| => Message(Header(bodies[i]), bodies[i]))
  }

  /** The packets of the stream: no delay, the type dem_read, the length and the message. */
  function Packets(bodies: seq<seq<Byte>>): (r: seq<seq<Byte>>)
    ensures |r| == |bodies| && forall i :: 0 <= i < |bodies| ==> r[i] == [0, 1] + Long(|bodies[i]|) + bodies[i]
  {
    hide Long;
    seq(|bodies|, i requires 0 <= i < |bodies| => Header(bodies[i]) + bodies[i])
  }

  /** Net_SendConnectionMVD up to the part of the stream that is not yet due. */
  function Events(k: Known): seq<ProxyEvent>
    requires |k.sounds| == |k.models| == NameList.MAX_LIST && Prespawn.Sized(k.state)
  {
    Messages(FirstBodies(k)) + [Flush] + Messages(LastBodies(k)) + [Flush, Flush]
  }

  // ---------- The messages are packets ----------

  lemma {:induction false} BytesAppend(a: seq<ProxyEvent>, b: seq<ProxyEvent>)
    ensures ProxyFeed.Bytes(a + b) == ProxyFeed.Bytes(a) + ProxyFeed.Bytes(b)
  {
    if a == [] {
      assert a + b == b;
    } else {
      assert (a + b)[1..] == a[1..] + b;
      BytesAppend(a[1..], b);
    }
  }

  lemma {:induction false} BytesOfMessages(bodies: seq<seq<Byte>>)
    ensures ProxyFeed.Bytes(Messages(bodies)) == Flat(Packets(bodies))
  {
    if bodies != [] {
      assert Messages(bodies)[1..] == Messages(bodies[1..]) && Packets(bodies)[1..] == Packets(bodies[1..]);
      BytesOfMessages(bodies[1..]);
    }
  }

  lemma FlushesAreEmpty()
    ensures ProxyFeed.Bytes([Flush]) == [] && ProxyFeed.Bytes([Flush, Flush]) == []
  {
    assert [Flush][1..] == [] && [Flush, Flush][1..] == [Flush];
  }

  /** The bytes of a snapshot are the packets of its messages. */
  lemma SnapshotIsPackets(k: Known)
    requires |k.sounds| == |k.models| == NameList.MAX_LIST && Prespawn.Sized(k.state)
    ensures ProxyFeed.Bytes(Events(k)) == Flat(Packets(Bodies(k)))
  {
    hide ProxyFeed.Bytes, Flat, Messages, FirstBodies, LastBodies;
    var first, last := FirstBodies(k), LastBodies(k);
    FlushesAreEmpty();
    BytesOfMessages(first);
    BytesOfMessages(last);
    BytesAppend(Messages(first) + [Flush] + Messages(last), [Flush, Flush]);
    BytesAppend(Messages(first) + [Flush], Messages(last));
    BytesAppend(Messages(first), [Flush]);
    assert Packets(first + last) == Packets(first) + Packets(last);
    FlatAppend(Packets(first), Packets(last));
  }

  /** A message of at most 8192 bytes is a packet that the receiver finds, and parses when it is due. */
  lemma PacketIsWellFormed(body: seq<Byte>)
    requires |body| <= MAX_MSGLEN
    ensures WellFormed(Header(body) + body) && ParsedWhenDue((Header(body) + body)[1], false)
  {
    hide GetLong, Long;
    var p := Header(body) + body;
    assert p[2..] == Long(|body|) + body;
    LongRoundTrip(|body|, body);
  }

  // ---------- The receiver ----------

  /** What a receiver holds of a map; `others` are the messages that its parser here does not look into. */
  datatype Copy = Copy(
    sounds: NameList.Names, models: NameList.Names, state: MapCopy, ents: Frame, others: seq<seq<Byte>>)

  function NoNames(): (r: NameList.Names)
    ensures |r| == NameList.MAX_LIST && forall i :: 0 <= i < |r| ==> r[i] == []
  {
    seq(NameList.MAX_LIST, _ => [])
  }

  function NoMap(): (r: MapCopy)
    ensures Cleared(r)
    ensures forall i :: 0 <= i < MAX_ENTITIES ==> r.baselines[i] == NULL_ENTITY
  {
    MapCopy(seq(Prespawn.MAX_CLIENTS, _ => Prespawn.Player([], 0, 0, 0)), seq(MAX_ENTITIES, _ => NULL_ENTITY),
            seq(Prespawn.MAX_LIGHTSTYLES, _ => []), [], [])
  }

  /** QTV_CleanupMap, with which ParseServerData begins: everything is forgotten. */
  function Nothing(): Copy {
    Copy(NoNames(), NoNames(), NoMap(), [], [])
  }

  /** Commands that do not touch what a copy holds. */
  predicate Elsewhere(svc: Byte) {
    svc == SVC_PLAYERINFO || svc == SVC_STUFFTEXT
  }

  /** ParseMessage for the messages of a snapshot; `None` for other commands. */
  function ReadBody(fmt: Format, c: Copy, body: seq<Byte>): Option<Copy> {
    if body == [] then Some(c)
    else if body[0] == SVC_SERVERDATA then Some(Nothing().(others := [body]))
    else if Elsewhere(body[0]) then Some(c.(others := c.others + [body]))
    else if body[0] == SVC_SOUNDLIST && |c.sounds| == NameList.MAX_LIST then
      Some(c.(sounds := NameList.ParsePage(c.sounds, body[1..]).0))
    else if body[0] == SVC_MODELLIST && |c.models| == NameList.MAX_LIST then
      Some(c.(models := NameList.ParsePage(c.models, body[1..]).0))
    else if body[0] == SVC_PACKETENTITIES then
      Some(c.(ents := ParseEnts(fmt, c.state.baselines, [], body[1..]).0))
    else
      var m := ParseCommands(fmt, c.state, body);
      if m.None? then None else Some(c.(state := m.value))
  }

  function ReadAll(fmt: Format, c: Copy, bodies: seq<seq<Byte>>): Option<Copy> {
    if bodies == [] then Some(c)
    else
      var n := |bodies| - 1;
      var r := ReadAll(fmt, c, bodies[..n]);
      if r.None? then None else ReadBody(fmt, r.value, bodies[n])
  }

  lemma {:induction false} ReadOn(fmt: Format, c: Copy, a: seq<seq<Byte>>, b: seq<seq<Byte>>)
    requires ReadAll(fmt, c, a).Some?
    ensures ReadAll(fmt, c, a + b) == ReadAll(fmt, ReadAll(fmt, c, a).value, b)
    decreases |b|
  {
    hide ReadBody;
    if b == [] {
      assert a + b == a;
    } else {
      var n := |b| - 1;
      assert (a + b)[..|a + b| - 1] == a + b[..n] && (a + b)[|a + b| - 1] == b[n];
      ReadOn(fmt, c, a, b[..n]);
    }
  }

  lemma ReadOne(fmt: Format, c: Copy, body: seq<Byte>)
    ensures ReadAll(fmt, c, [body]) == ReadBody(fmt, c, body)
  {
    assert [body][..0] == [];
  }

  // ---------- The lists ----------

  /** The list that was sent, up to its end; the first name and those beyond are the receiver's own. */
  function ListGot(was: NameList.Names, list: NameList.Names, e: nat): (r: NameList.Names)
    requires |was| == |list| == NameList.MAX_LIST
    ensures |r| == NameList.MAX_LIST
    ensures forall j :: 0 <= j < NameList.MAX_LIST ==> r[j] == if 0 < j <= e then list[j] else was[j]
  {
    seq(NameList.MAX_LIST, j requires 0 <= j < NameList.MAX_LIST => if 0 < j <= e then list[j] else was[j])
  }

  function WithList(c: Copy, svc: Byte, got: NameList.Names): Copy {
    if svc == SVC_SOUNDLIST then c.(sounds := got) else c.(models := got)
  }

  function ListOf(c: Copy, svc: Byte): NameList.Names {
    if svc == SVC_SOUNDLIST then c.sounds else c.models
  }

  /** After `n` turns of the loop the receiver has the names up to the cursor. */
  lemma {:induction false} ListRead(fmt: Format, c: Copy, svc: Byte, list: NameList.Names, n: nat, e: nat)
    returns (got: NameList.Names)
    requires svc == SVC_SOUNDLIST || svc == SVC_MODELLIST
    requires NameList.ValidNames(list) && NameList.EndsAt(list, e) && |ListOf(c, svc)| == NameList.MAX_LIST
    ensures |got| == NameList.MAX_LIST
    ensures ReadAll(fmt, c, ListBodies(svc, list, n)) == Some(WithList(c, svc, got))
    ensures var cursor := NameList.CursorAfter(list, n);
            && -1 <= cursor < e
            && NameList.Partial(got, ListOf(c, svc), list, if cursor < 0 then e else cursor, e)
  {
    hide NameList.ListPage, NameList.ParsePage, NameList.Partial, ReadBody;
    if n == 0 {
      got := ListOf(c, svc);
      NothingSent(got, list, e);
      assert WithList(c, svc, got) == c;
    } else {
      var was := ListOf(c, svc);
      got := ListRead(fmt, c, svc, list, n - 1, e);
      var cursor := NameList.CursorAfter(list, n - 1);
      if cursor >= 0 {
        var page := NameList.ListPage(list, cursor, 1).0;
        NameList.PageRoundTrip(list, cursor, e, got, was, []);
        assert page + [] == page;
        var now := WithList(c, svc, got);
        ReadOn(fmt, c, ListBodies(svc, list, n - 1), [[svc] + page]);
        ReadOne(fmt, now, [svc] + page);
        PageRead(fmt, now, svc, page);
        got := NameList.ParsePage(got, page).0;
      } else {
        assert ListBodies(svc, list, n) == ListBodies(svc, list, n - 1) + [] == ListBodies(svc, list, n - 1);
      }
    }
  }

  lemma NothingSent(was: NameList.Names, list: NameList.Names, e: nat)
    requires |was| == |list| == NameList.MAX_LIST
    ensures NameList.Partial(was, was, list, 0, e)
  {
  }

  lemma PageRead(fmt: Format, c: Copy, svc: Byte, page: seq<Byte>)
    requires (svc == SVC_SOUNDLIST || svc == SVC_MODELLIST) && |ListOf(c, svc)| == NameList.MAX_LIST
    ensures ReadBody(fmt, c, [svc] + page) == Some(WithList(c, svc, NameList.ParsePage(ListOf(c, svc), page).0))
  {
    hide NameList.ParsePage;
    assert ([svc] + page)[1..] == page;
  }

  lemma WholeListRead(fmt: Format, c: Copy, svc: Byte, list: NameList.Names, n: nat, e: nat)
    requires svc == SVC_SOUNDLIST || svc == SVC_MODELLIST
    requires NameList.ValidNames(list) && NameList.EndsAt(list, e) && |ListOf(c, svc)| == NameList.MAX_LIST
    requires NameList.CursorAfter(list, n) == -1
    ensures ReadAll(fmt, c, ListBodies(svc, list, n)) == Some(WithList(c, svc, ListGot(ListOf(c, svc), list, e)))
  {
    hide ReadAll, ListBodies, NameList.CursorAfter;
    var got := ListRead(fmt, c, svc, list, n, e);
    assert got == ListGot(ListOf(c, svc), list, e);
  }

  // ---------- The pages of the start-up state ----------

  /** A command that the start-up parser accepts is none of the others. */
  lemma StartUpCommand(fmt: Format, c: Copy, body: seq<Byte>)
    requires ParseCommands(fmt, c.state, body).Some?
    ensures ReadBody(fmt, c, body) == Some(c.(state := ParseCommands(fmt, c.state, body).value))
  {
    hide ReadBody;
    if body == [] {
      NoCommand(fmt, c);
    } else {
      FirstCommand(fmt, c.state, body);
      OnlyStartUp(fmt, c.state, body[0], body[1..]);
      PassedOn(fmt, c, body);
    }
  }

  lemma NoCommand(fmt: Format, c: Copy)
    ensures ReadBody(fmt, c, []) == Some(c) && ParseCommands(fmt, c.state, []) == Some(c.state)
  {
  }

  lemma FirstCommand(fmt: Format, c: MapCopy, body: seq<Byte>)
    requires body != [] && ParseCommands(fmt, c, body).Some?
    ensures ParseCommand(fmt, c, body[0], body[1..]).Some?
  {
    hide ParseCommand;
  }

  lemma PassedOn(fmt: Format, c: Copy, body: seq<Byte>)
    requires body != [] && body[0] in {40, 14, 36, 53, 22, 12, 29, 20} && ParseCommands(fmt, c.state, body).Some?
    ensures ReadBody(fmt, c, body) == Some(c.(state := ParseCommands(fmt, c.state, body).value))
  {
    hide ParseEnts, NameList.ParsePage, Nothing, ParseCommands;
  }

  lemma OnlyStartUp(fmt: Format, c: MapCopy, svc: Byte, s: seq<Byte>)
    ensures ParseCommand(fmt, c, svc, s).Some? ==> svc in {40, 14, 36, 53, 22, 12, 29, 20}
  {
    hide ParseInfo, DeltaCodec.ReadBaseline, BoundedString, ParseSound;
  }

  lemma {:induction false} PagesRead(fmt: Format, c: Copy, m: Prespawn.MapState, n: nat)
    requires Storable(m) && Cleared(c.state) && fmt == m.fmt
    ensures var items := Prespawn.Items(m, OWN_SLOT);
            ReadAll(fmt, c, PageBodies(items, n))
            == Some(c.(state := CopyAt(m, OWN_SLOT, c.state, Prespawn.Cursor(items, n))))
  {
    hide ReadBody, ReadAll, CopyAt, Prespawn.Items, Prespawn.Cursor, Storable, PageBodies;
    IsSized(m);
    var items := Prespawn.Items(m, OWN_SLOT);
    if n == 0 {
      CopyAtStart(m, OWN_SLOT, c.state);
      NoPages(fmt, c, items);
    } else {
      PagesRead(fmt, c, m, n - 1);
      OnePageMore(items, n);
      var a, b := Prespawn.Cursor(items, n - 1), Prespawn.Cursor(items, n);
      if a < |items| {
        PageIsRead(fmt, c, m, a, b);
        ReadOn(fmt, c, PageBodies(items, n - 1), [Prespawn.All(items[a..b])]);
      }
    }
  }

  lemma NoPages(fmt: Format, c: Copy, items: seq<Prespawn.Item>)
    ensures ReadAll(fmt, c, PageBodies(items, 0)) == Some(c) && Prespawn.Cursor(items, 0) == 0
  {
  }

  lemma OnePageMore(items: seq<Prespawn.Item>, n: nat)
    requires n > 0
    ensures var a, b := Prespawn.Cursor(items, n - 1), Prespawn.Cursor(items, n);
            && a <= b <= |items| && (a == |items| ==> b == a)
            && PageBodies(items, n)
               == if a == |items| then PageBodies(items, n - 1)
                  else PageBodies(items, n - 1) + [Prespawn.All(items[a..b])]
  {
    hide Prespawn.All;
    CursorGrows(items, n);
    if Prespawn.Cursor(items, n - 1) == |items| {
      StaysAtEnd(items, n);
      assert PageBodies(items, n) == PageBodies(items, n - 1) + [] == PageBodies(items, n - 1);
    }
  }

  lemma PageIsRead(fmt: Format, c: Copy, m: Prespawn.MapState, a: nat, b: nat)
    requires Storable(m) && Cleared(c.state) && fmt == m.fmt && a <= b <= Prespawn.TOTAL
    ensures Prespawn.Sized(m) && |Prespawn.Items(m, OWN_SLOT)| == Prespawn.TOTAL
    ensures ReadAll(fmt, c.(state := CopyAt(m, OWN_SLOT, c.state, a)),
                    [Prespawn.All(Prespawn.Items(m, OWN_SLOT)[a..b])])
            == Some(c.(state := CopyAt(m, OWN_SLOT, c.state, b)))
  {
    hide ReadBody, ReadAll, CopyAt, Storable, Prespawn.All;
    IsSized(m);
    var now, body := c.(state := CopyAt(m, OWN_SLOT, c.state, a)), Prespawn.All(Prespawn.Items(m, OWN_SLOT)[a..b]);
    PageParsed(m, OWN_SLOT, c.state, a, b);
    StartUpCommand(fmt, now, body);
    ReadOne(fmt, now, body);
  }

  lemma StaysAtEnd(items: seq<Prespawn.Item>, n: nat)
    requires n > 0 && Prespawn.Cursor(items, n - 1) == |items|
    ensures Prespawn.Cursor(items, n) == |items|
  {
  }

  // ---------- The entities ----------

  /** The baselines as another proxy gets them: nothing that does not fit the wire, and none of entity 0. */
  ghost predicate PlainBases(m: Prespawn.MapState)
    requires Prespawn.Sized(m)
  {
    && m.baselines[0].modelindex == 0 && Quantise(m.fmt, NULL_ENTITY) == NULL_ENTITY
    && forall i :: 0 <= i < MAX_ENTITIES ==>
         var e := m.baselines[i];
         && e.modelindex < 0x100 && e.effects == 0 && e.alpha == 0 && e.scale == 0
         && (e.modelindex == 0 ==> e == NULL_ENTITY)
  }

  lemma BaselinesGot(m: Prespawn.MapState, c: MapCopy)
    requires Prespawn.Sized(m) && SizedCopy(c) && PlainBases(m)
    requires forall i :: 0 <= i < MAX_ENTITIES ==> c.baselines[i] == NULL_ENTITY
    ensures CopyAt(m, OWN_SLOT, c, Prespawn.TOTAL).baselines == QuantiseBaselines(m.fmt, m.baselines)
  {
    hide Quantise, PlayerGot, SoundsGot, StaticsGot;
    var got := CopyAt(m, OWN_SLOT, c, Prespawn.TOTAL).baselines;
    forall i | 0 <= i < MAX_ENTITIES
      ensures got[i] == Quantise(m.fmt, m.baselines[i])
    {
      var e := m.baselines[i];
      assert e.modelindex % 0x100 == e.modelindex;
      assert e.(modelindex := e.modelindex % 0x100, effects := 0, alpha := 0, scale := 0) == e;
    }
  }

  lemma EntsRead(fmt: Format, c: Copy, k: Known)
    requires Prespawn.Sized(k.state) && ValidFrame(k.ents) && fmt == k.state.fmt && |EntsBody(k)| < ROOM
    requires c.state.baselines == QuantiseBaselines(fmt, k.state.baselines)
    ensures ReadBody(fmt, c, EntsBody(k)) == Some(c.(ents := QuantiseFrame(fmt, k.ents)))
  {
    hide InitialRecords, ParseEnts, QuantiseBaselines, QuantiseFrame, Short;
    var records := InitialRecords(fmt, k.state.baselines, k.ents) + Short(0);
    NotClipped([SVC_PACKETENTITIES] + records);
    InitialRoundTrip(fmt, k.state.baselines, k.ents, []);
    assert Short(0) + [] == Short(0);
    assert EntsBody(k)[1..] == records;
  }

  lemma NotClipped(s: seq<Byte>)
    requires |Clip(s, ROOM)| < ROOM
    ensures Clip(s, ROOM) == s
  {
  }

  // ---------- Main results ----------

  /** A list that its loop gets through. */
  ghost predicate Ends(list: NameList.Names) {
    NameList.ValidNames(list) && exists i :: 0 < i < NameList.MAX_LIST && list[i] == []
  }

  /** A start-up state that its loop gets through. */
  ghost predicate FitsPages(m: Prespawn.MapState) {
    && Storable(m)
    && forall i :: 0 <= i < Prespawn.MAX_CLIENTS && (i != OWN_SLOT || m.played)
         ==> |m.players[i].userinfo| <= Prespawn.PAGE
  }

  /** A state that the loops get through and the wire can carry. */
  ghost predicate Presentable(k: Known) {
    && Ends(k.sounds) && Ends(k.models) && FitsPages(k.state) && PlainBases(k.state)
    && ValidFrame(k.ents)
    && k.serverdata != [] && k.serverdata[0] == SVC_SERVERDATA
    && (k.players == [] || k.players[0] == SVC_PLAYERINFO)
    && forall b :: b in Bodies(k) ==> |b| <= MAX_MSGLEN
  }

  /** The copy has the names of a list up to its end, and no others. */
  ghost predicate HasList(got: NameList.Names, list: NameList.Names) {
    && |got| == |list| == NameList.MAX_LIST
    && exists e :: 0 < e < NameList.MAX_LIST && HasNames(got, list, e)
  }

  ghost predicate HasNames(got: NameList.Names, list: NameList.Names, e: nat)
    requires |got| == |list| == NameList.MAX_LIST
  {
    && NameList.EndsAt(list, e)
    && forall j :: 0 <= j < NameList.MAX_LIST ==> got[j] == if 0 < j < e then list[j] else []
  }

  /**
   * The copy holds the state and nothing else: lists, map and entities, as the wire carries them, and the messages
   * with the server data, with the players, if there are any, and for the skins.
   */
  ghost predicate Holds(k: Known, got: Copy)
    requires Prespawn.Sized(k.state)
  {
    && HasList(got.sounds, k.sounds) && HasList(got.models, k.models)
    && got.state == CopyAt(k.state, OWN_SLOT, NoMap(), Prespawn.TOTAL)
    && got.ents == QuantiseFrame(k.state.fmt, k.ents)
    && got.others == [k.serverdata] + (if k.players == [] then [] else [k.players])
                     + [[9, 115, 107, 105, 110, 115, 10, 0]]
  }

  lemma ListEnd(list: NameList.Names) returns (e: nat)
    requires Ends(list)
    ensures NameList.EndsAt(list, e) && NameList.CursorAfter(list, NameList.MAX_LIST) == -1
  {
    var i :| 0 < i < NameList.MAX_LIST && list[i] == [];
    e := NameList.FirstEmpty(list, i);
    NameList.EndsInTime(list, e, NameList.MAX_LIST);
  }

  lemma PagesEnd(m: Prespawn.MapState)
    requires FitsPages(m)
    ensures Prespawn.Sized(m)
    ensures Prespawn.Cursor(Prespawn.Items(m, OWN_SLOT), Prespawn.TOTAL) == Prespawn.TOTAL
    ensures forall k :: 0 <= k < Prespawn.TOTAL ==> Prespawn.Fits(Prespawn.Items(m, OWN_SLOT)[k], 0)
  {
    hide Prespawn.Items, Prespawn.Cursor, Prespawn.Fits;
    Prespawn.EveryItemFits(m, OWN_SLOT);
    Prespawn.CursorReaches(Prespawn.Items(m, OWN_SLOT), Prespawn.TOTAL);
  }

  /**
   * Whoever reads the messages of a snapshot ends up with the state it was taken of, whatever map or state it had
   * before.
   */
  lemma SnapshotArrives(k: Known, c: Copy)
    requires Presentable(k)
    ensures var got := ReadAll(k.state.fmt, c, Bodies(k)); got.Some? && Holds(k, got.value)
  {
    hide ReadAll, ReadBody, ListsOf, PageBodies, EntsBody, CopyAt, Storable, PlainBases, Holds, Heard, NoMap, NoNames,
         NameList.CursorAfter, Prespawn.Cursor, Prespawn.Items, NameList.EndsAt, QuantiseFrame, ListGot;
    PagesEnd(k.state);
    IsSized(k.state);
    var fmt := k.state.fmt;
    var es := ListEnd(k.sounds);
    var em := ListEnd(k.models);
    var c3 := ReadFirst(fmt, c, k, es, em);
    var b4 := PageBodies(Prespawn.Items(k.state, OWN_SLOT), Prespawn.TOTAL);
    PagesRead(fmt, c3, k.state, Prespawn.TOTAL);
    ReadOn(fmt, c, FirstBodies(k), b4);
    var c4 := c3.(state := CopyAt(k.state, OWN_SLOT, NoMap(), Prespawn.TOTAL));
    BaselinesGot(k.state, NoMap());
    SmallEnts(k);
    LastRead(fmt, c4, k);
    ReadOn(fmt, c, FirstBodies(k) + b4, [k.players, EntsBody(k), SKINS]);
    assert Bodies(k) == FirstBodies(k) + b4 + [k.players, EntsBody(k), SKINS];
    AllThere(k, es, em);
  }

  lemma SmallEnts(k: Known)
    requires Presentable(k)
    ensures ValidFrame(k.ents) && |EntsBody(k)| < ROOM
  {
    hide ListBodies, PageBodies, EntsBody, PlainBases;
    assert EntsBody(k) in LastBodies(k) && LastBodies(k) <= Bodies(k)[|FirstBodies(k)|..];
    assert EntsBody(k) in Bodies(k);
  }

  /** The receiver has everything once all parts have come. */
  lemma AllThere(k: Known, es: nat, em: nat)
    requires Prespawn.Sized(k.state) && |k.sounds| == |k.models| == NameList.MAX_LIST
    requires NameList.EndsAt(k.sounds, es) && NameList.EndsAt(k.models, em)
    ensures var c := Copy(ListGot(NoNames(), k.sounds, es), ListGot(NoNames(), k.models, em),
                          CopyAt(k.state, OWN_SLOT, NoMap(), Prespawn.TOTAL), [], [k.serverdata]);
            Holds(k, Heard(Heard(c, k.players).(ents := QuantiseFrame(k.state.fmt, k.ents)), SKINS))
  {
    hide CopyAt, QuantiseFrame, NameList.EndsAt, ListGot, HasList;
    NamesGot(k.sounds, es);
    NamesGot(k.models, em);
  }

  /** The server data and the lists. */
  lemma ReadFirst(fmt: Format, c: Copy, k: Known, es: nat, em: nat) returns (now: Copy)
    requires NameList.ValidNames(k.sounds) && NameList.EndsAt(k.sounds, es)
    requires NameList.ValidNames(k.models) && NameList.EndsAt(k.models, em)
    requires NameList.CursorAfter(k.sounds, NameList.MAX_LIST) == -1
    requires NameList.CursorAfter(k.models, NameList.MAX_LIST) == -1
    requires k.serverdata != [] && k.serverdata[0] == SVC_SERVERDATA
    ensures ReadAll(fmt, c, FirstBodies(k)) == Some(now)
    ensures now == Copy(ListGot(NoNames(), k.sounds, es), ListGot(NoNames(), k.models, em), NoMap(), [],
                        [k.serverdata])
  {
    hide ReadAll, NameList.CursorAfter, NameList.EndsAt, NoNames, NoMap, ListBodies;
    ReadServerData(fmt, c, k.serverdata);
    now := ReadLists(fmt, Nothing().(others := [k.serverdata]), k, es, em);
    ReadOn(fmt, c, [k.serverdata], ListsOf(k));
    assert [k.serverdata] + ListsOf(k) == FirstBodies(k);
  }

  function ListsOf(k: Known): seq<seq<Byte>>
    requires |k.sounds| == |k.models| == NameList.MAX_LIST
  {
    ListBodies(SVC_SOUNDLIST, k.sounds, NameList.MAX_LIST) + ListBodies(SVC_MODELLIST, k.models, NameList.MAX_LIST)
  }

  /** An empty list gets exactly the names that were sent. */
  lemma NamesGot(list: NameList.Names, e: nat)
    requires |list| == NameList.MAX_LIST && NameList.EndsAt(list, e)
    ensures HasList(ListGot(NoNames(), list, e), list)
  {
    assert HasNames(ListGot(NoNames(), list, e), list, e);
  }

  lemma ReadServerData(fmt: Format, c: Copy, body: seq<Byte>)
    requires body != [] && body[0] == SVC_SERVERDATA
    ensures ReadAll(fmt, c, [body]) == Some(Nothing().(others := [body]))
  {
    ReadOne(fmt, c, body);
  }

  lemma ReadLists(fmt: Format, c: Copy, k: Known, es: nat, em: nat) returns (now: Copy)
    requires NameList.ValidNames(k.sounds) && NameList.EndsAt(k.sounds, es)
    requires NameList.ValidNames(k.models) && NameList.EndsAt(k.models, em)
    requires NameList.CursorAfter(k.sounds, NameList.MAX_LIST) == -1
    requires NameList.CursorAfter(k.models, NameList.MAX_LIST) == -1
    requires |c.sounds| == |c.models| == NameList.MAX_LIST
    ensures ReadAll(fmt, c, ListsOf(k)) == Some(now)
    ensures now == c.(sounds := ListGot(c.sounds, k.sounds, es), models := ListGot(c.models, k.models, em))
  {
    hide ReadAll, ListBodies, NameList.CursorAfter, NameList.EndsAt;
    WholeListRead(fmt, c, SVC_SOUNDLIST, k.sounds, NameList.MAX_LIST, es);
    var c2 := c.(sounds := ListGot(c.sounds, k.sounds, es));
    WholeListRead(fmt, c2, SVC_MODELLIST, k.models, NameList.MAX_LIST, em);
    ReadOn(fmt, c, ListBodies(SVC_SOUNDLIST, k.sounds, NameList.MAX_LIST),
           ListBodies(SVC_MODELLIST, k.models, NameList.MAX_LIST));
    now := c2.(models := ListGot(c.models, k.models, em));
  }

  /** What a message that is not looked into leaves: itself, unless it is empty. */
  function Heard(c: Copy, body: seq<Byte>): Copy {
    if body == [] then c else c.(others := c.others + [body])
  }

  lemma ReadOther(fmt: Format, c: Copy, body: seq<Byte>)
    requires body == [] || Elsewhere(body[0])
    ensures ReadAll(fmt, c, [body]) == Some(Heard(c, body))
  {
    ReadOne(fmt, c, body);
  }

  lemma LastRead(fmt: Format, c: Copy, k: Known)
    requires Prespawn.Sized(k.state) && ValidFrame(k.ents) && fmt == k.state.fmt && |EntsBody(k)| < ROOM
    requires c.state.baselines == QuantiseBaselines(fmt, k.state.baselines)
    requires k.players == [] || k.players[0] == SVC_PLAYERINFO
    ensures ReadAll(fmt, c, [k.players, EntsBody(k), SKINS])
            == Some(Heard(Heard(c, k.players).(ents := QuantiseFrame(fmt, k.ents)), SKINS))
  {
    hide ReadBody, EntsBody, ReadAll, ValidFrame, QuantiseBaselines, QuantiseFrame;
    var c1 := Heard(c, k.players);
    ReadOther(fmt, c, k.players);
    EntsRead(fmt, c1, k);
    ReadOne(fmt, c1, EntsBody(k));
    ReadOn(fmt, c, [k.players], [EntsBody(k)]);
    ReadOther(fmt, c1.(ents := QuantiseFrame(fmt, k.ents)), SKINS);
    ReadOn(fmt, c, [k.players] + [EntsBody(k)], [SKINS]);
    assert [k.players] + [EntsBody(k)] + [SKINS] == [k.players, EntsBody(k), SKINS];
  }

  /**
   * A proxy that is fed by another under early forwarding, in every run and whenever it last joined or
   * resynchronised: what it has been given since, and not been dropped or left to lag, is a stream of
   * well-formed packets. The first of them bring it the state that the other had parsed, whatever it held before,
   * and the others are the stream from the first packet that was not yet due, with no gap and no repeat.
   */
  lemma JoinedProxyHasState(packets: seq<seq<Byte>>, known: seq<nat> -> Known,
                            snap: ProxyFeed.Snapshots, demo: bool, events: seq<ProxyFeed.FeedEvent>, c: Copy)
    requires (forall p :: p in packets ==> WellFormed(p)) && ProxyFeed.AlwaysEarly(events)
    requires forall given :: Presentable(known(given)) && snap(given) == Events(known(given))
    ensures ProxyFeed.Followed(packets, snap, ProxyFeed.NoFeed(demo))
    ensures var f := ProxyFeed.Feeds(packets, snap, ProxyFeed.NoFeed(demo), events);
            f.joined && !ProxyFeed.Lagged(f.proxy) ==>
              && f.base <= f.reading.passed <= |packets|
              && Arrives(known(f.at), c, packets[f.base..f.reading.passed], f.before, f.proxy.accepted)
  {
    hide Presentable, Flat, WellFormed, ProxyFeed.AlwaysEarly, ProxyFeed.Followed, Arrives;
    ProxyFeed.SnapshotThenStream(packets, snap, demo, events);
    var f := ProxyFeed.Feeds(packets, snap, ProxyFeed.NoFeed(demo), events);
    if f.joined && !ProxyFeed.Lagged(f.proxy) {
      SnapshotAndStream(known(f.at), c, packets, f.base, f.reading.passed, f.before);
    }
  }

  /**
   * A connection was given the packets of a snapshot, which begins with the server data, and then a stream, and the
   * former bring the state.
   */
  ghost predicate Arrives(k: Known, c: Copy, stream: seq<seq<Byte>>, before: seq<Byte>, accepted: seq<Byte>) {
    && |k.sounds| == |k.models| == NameList.MAX_LIST && Prespawn.Sized(k.state)
    && var first := Packets(Bodies(k));
       && (forall p :: p in first + stream ==> WellFormed(p))
       && accepted == before + Flat(first + stream)
       && first != [] && first[0] == [0, 1] + Long(|k.serverdata|) + k.serverdata
       && var got := ReadAll(k.state.fmt, c, Bodies(k)); got.Some? && Holds(k, got.value)
  }

  lemma SnapshotAndStream(k: Known, c: Copy, packets: seq<seq<Byte>>, base: nat, passed: nat,
                          before: seq<Byte>)
    requires Presentable(k) && base <= passed <= |packets| && forall p :: p in packets ==> WellFormed(p)
    ensures Arrives(k, c, packets[base..passed], before,
                    before + ProxyFeed.Bytes(Events(k)) + Flat(packets[base..passed]))
  {
    hide Flat, WellFormed, Bodies, Events, Holds, ReadAll, ProxyFeed.Bytes, Long;
    IsSized(k.state);
    ServerDataFirst(k);
    SnapshotArrives(k, c);
    SnapshotIsPackets(k);
    var bodies, stream := Bodies(k), packets[base..passed];
    var all := Packets(bodies) + stream;
    FlatAppend(Packets(bodies), stream);
    forall p | p in all
      ensures WellFormed(p)
    {
      if p in Packets(bodies) {
        var i :| 0 <= i < |bodies| && p == Packets(bodies)[i];
        assert bodies[i] in bodies;
        PacketIsWellFormed(bodies[i]);
      }
    }
    assert before + Flat(Packets(bodies)) + Flat(stream) == before + (Flat(Packets(bodies)) + Flat(stream));
  }

  lemma ServerDataFirst(k: Known)
    requires |k.sounds| == |k.models| == NameList.MAX_LIST && Prespawn.Sized(k.state)
    ensures Bodies(k) != [] && Bodies(k)[0] == k.serverdata
  {
    hide ListBodies, PageBodies, EntsBody;
  }

  // ---------- The implementation ----------

  /** A state that the three loops get through. */
  ghost predicate Sendable(k: Known) {
    Ends(k.sounds) && Ends(k.models) && FitsPages(k.state)
  }

  lemma {:induction false} EventsAppend(p: Proxy, a: seq<ProxyEvent>, b: seq<ProxyEvent>)
    ensures AfterEvents(p, a + b) == AfterEvents(AfterEvents(p, a), b)
    decreases |a|
  {
    hide AfterEvent;
    if a == [] {
      assert a + b == b;
    } else {
      assert (a + b)[1..] == a[1..] + b;
      EventsAppend(AfterEvent(p, a[0]), a[1..], b);
    }
  }

  lemma OneMore(p: Proxy, sent: seq<ProxyEvent>, e: ProxyEvent)
    ensures AfterEvents(p, sent + [e]) == AfterEvent(AfterEvents(p, sent), e)
  {
    hide AfterEvent;
    EventsAppend(p, sent, [e]);
    assert [e][1..] == [];
  }

  lemma MessagesMore(bodies: seq<seq<Byte>>, body: seq<Byte>)
    ensures Messages(bodies + [body]) == Messages(bodies) + [Message(Header(body), body)]
  {
    hide Header;
  }

  /** The message is sent and cleared. */
  method SendBody(prox: OProxy, msg: NetMsg, ghost start: Proxy, ghost sent: seq<ProxyEvent>)
    requires prox.Valid() && msg.Valid() && msg.data != prox.buffer && prox.View() == AfterEvents(start, sent)
    modifies prox, prox.buffer, msg`cursize
    ensures prox.Valid() && msg.Valid() && msg.cursize == 0
    ensures var body := old(msg.Contents()); prox.View() == AfterEvents(start, sent + [Message(Header(body), body)])
  {
    hide AfterMessage, AfterEvents, Header;
    var body := msg.data[..msg.cursize];
    OneMore(start, sent, Message(Header(body), body));
    HeaderIs(body);
    prox.SendMessage(body, DEM_READ, 0xffff_ffff);
    msg.cursize := 0;
  }

  lemma HeaderIs(body: seq<Byte>)
    ensures Header(body) == MessageHeader(DEM_READ, |body|, 0xffff_ffff)
  {
  }

  lemma {:induction false} ListStops(svc: Byte, list: NameList.Names, n: nat, m: nat)
    requires |list| == NameList.MAX_LIST && n <= m && NameList.CursorAfter(list, n) == -1
    ensures ListBodies(svc, list, m) == ListBodies(svc, list, n) && NameList.CursorAfter(list, m) == -1
    decreases m
  {
    hide NameList.ListPage;
    if n < m {
      ListStops(svc, list, n, m - 1);
    }
  }

  lemma ListMore(svc: Byte, list: NameList.Names, n: nat)
    requires |list| == NameList.MAX_LIST && NameList.CursorAfter(list, n) >= 0
    ensures var (page, next) := NameList.ListPage(list, NameList.CursorAfter(list, n), 1);
            && NameList.CursorAfter(list, n + 1) == next
            && Messages(ListBodies(svc, list, n + 1))
               == Messages(ListBodies(svc, list, n)) + [Message(Header([svc] + page), [svc] + page)]
  {
    hide NameList.ListPage, Messages, Header;
    var c := NameList.CursorAfter(list, n);
    MessagesMore(ListBodies(svc, list, n), [svc] + NameList.ListPage(list, c, 1).0);
  }

  /** The loop over the pages of a list. */
  method SendListPages(prox: OProxy, msg: NetMsg, svc: Byte, list: NameList.Names, ghost start: Proxy,
                       ghost sent: seq<ProxyEvent>)
    requires prox.Valid() && msg.Valid() && msg.data != prox.buffer && prox.View() == AfterEvents(start, sent)
    requires Ends(list) && msg.cursize == 0 && msg.maxsize == ROOM
    modifies prox, prox.buffer, msg`cursize, msg.data
    ensures prox.Valid() && msg.Valid() && msg.cursize == 0
    ensures prox.View() == AfterEvents(start, sent + Messages(ListBodies(svc, list, NameList.MAX_LIST)))
  {
    hide AfterEvents, Header, Messages, ListBodies, NameList.ListPage, NameList.CursorAfter;
    ghost var e := ListEnd(list);
    var prespawn: int := 0;
    ghost var n: nat := 0;
    FirstTurn(svc, list);
    assert sent + [] == sent;
    while prespawn >= 0
      invariant prox.Valid() && msg.Valid() && msg.cursize == 0
      invariant n <= NameList.MAX_LIST && prespawn == NameList.CursorAfter(list, n)
      invariant prox.View() == AfterEvents(start, sent + Messages(ListBodies(svc, list, n)))
      decreases NameList.MAX_LIST - n
    {
      NameList.EndsInTime(list, e, n);
      ListMore(svc, list, n);
      ghost var page := NameList.ListPage(list, prespawn, 1).0;
      ghost var before := Messages(ListBodies(svc, list, n));
      prespawn := NameList.SendList(prespawn, list, svc, msg);
      SendBody(prox, msg, start, sent + before);
      assert sent + before + [Message(Header([svc] + page), [svc] + page)]
             == sent + (before + [Message(Header([svc] + page), [svc] + page)]);
      n := n + 1;
      NameList.EndsInTime(list, e, n);
    }
    NameList.EndsInTime(list, e, n);
    ListStops(svc, list, n, NameList.MAX_LIST);
  }

  lemma FirstTurn(svc: Byte, list: NameList.Names)
    requires |list| == NameList.MAX_LIST
    ensures NameList.CursorAfter(list, 0) == 0 && Messages(ListBodies(svc, list, 0)) == []
  {
  }

  lemma {:induction false} PagesStop(items: seq<Prespawn.Item>, n: nat, m: nat)
    requires n <= m && Prespawn.Cursor(items, n) == |items|
    ensures PageBodies(items, m) == PageBodies(items, n) && Prespawn.Cursor(items, m) == |items|
    decreases m
  {
    hide Prespawn.All;
    if n < m {
      PagesStop(items, n, m - 1);
      StaysAtEnd(items, m);
    }
  }

  lemma PageMore(items: seq<Prespawn.Item>, n: nat)
    requires Prespawn.Cursor(items, n) < |items|
    ensures var c := Prespawn.Cursor(items, n);
            var next := Prespawn.Stop(items, c, 0);
            var body := Prespawn.All(items[c..next]);
            && Prespawn.Cursor(items, n + 1) == next
            && Messages(PageBodies(items, n + 1)) == Messages(PageBodies(items, n)) + [Message(Header(body), body)]
  {
    hide Prespawn.All, Messages, Header, Prespawn.Stop;
    var c := Prespawn.Cursor(items, n);
    MessagesMore(PageBodies(items, n), Prespawn.All(items[c..Prespawn.Cursor(items, n + 1)]));
  }

  lemma FirstPage(items: seq<Prespawn.Item>)
    ensures Prespawn.Cursor(items, 0) == 0 && Messages(PageBodies(items, 0)) == []
  {
  }

  lemma StorableIsStored(m: Prespawn.MapState)
    requires Storable(m)
    ensures Prespawn.Stored(m)
  {
  }

  /** The loop over the pages of the start-up state. */
  method SendStatePages(prox: OProxy, msg: NetMsg, m: Prespawn.MapState, ghost start: Proxy,
                        ghost sent: seq<ProxyEvent>)
    requires prox.Valid() && msg.Valid() && msg.data != prox.buffer && prox.View() == AfterEvents(start, sent)
    requires FitsPages(m) && Prespawn.Sized(m) && msg.cursize == 0 && msg.maxsize == ROOM
    modifies prox, prox.buffer, msg`cursize, msg.data
    ensures prox.Valid() && msg.Valid() && msg.cursize == 0
    ensures prox.View()
            == AfterEvents(start, sent + Messages(PageBodies(Prespawn.Items(m, OWN_SLOT), Prespawn.TOTAL)))
  {
    hide AfterEvents, Header, Messages, PageBodies, Prespawn.Items, Prespawn.All, Prespawn.Stop, Prespawn.Cursor,
         Prespawn.Fits, Prespawn.Left;
    PagesEnd(m);
    StorableIsStored(m);
    ghost var items := Prespawn.Items(m, OWN_SLOT);
    var prespawn: int := 0;
    ghost var n: nat := 0;
    FirstPage(items);
    assert sent + [] == sent;
    while prespawn >= 0
      invariant prox.Valid() && msg.Valid() && msg.cursize == 0 && n <= Prespawn.TOTAL
      invariant prespawn == if Prespawn.Cursor(items, n) == Prespawn.TOTAL then -1 else Prespawn.Cursor(items, n)
      invariant prox.View() == AfterEvents(start, sent + Messages(PageBodies(items, n)))
      decreases Prespawn.TOTAL - n
    {
      Prespawn.CursorReaches(items, n);
      Prespawn.NeverStopsAtSkipped(m, OWN_SLOT, n);
      Prespawn.EverythingFits(m, OWN_SLOT, prespawn);
      PageMore(items, n);
      ghost var body := Prespawn.All(items[prespawn..Prespawn.Stop(items, prespawn, 0)]);
      ghost var before := Messages(PageBodies(items, n));
      prespawn := Prespawn.Prespawn(m, 0, msg, prespawn, OWN_SLOT);
      assert msg.Contents() == [] + body == body;
      SendBody(prox, msg, start, sent + before);
      assert sent + before + [Message(Header(body), body)] == sent + (before + [Message(Header(body), body)]);
      n := n + 1;
    }
    PagesStop(items, n, Prespawn.TOTAL);
  }

  lemma MessagesAppend(a: seq<seq<Byte>>, b: seq<seq<Byte>>)
    ensures Messages(a + b) == Messages(a) + Messages(b)
  {
    hide Header;
  }

  lemma OneMessage(body: seq<Byte>)
    ensures Messages([body]) == [Message(Header(body), body)]
  {
    hide Header;
  }

  method SendBlock(prox: OProxy, body: seq<Byte>, ghost start: Proxy, ghost sent: seq<ProxyEvent>)
    requires prox.Valid() && prox.View() == AfterEvents(start, sent)
    modifies prox, prox.buffer
    ensures prox.Valid() && prox.View() == AfterEvents(start, sent + Messages([body]))
  {
    hide AfterMessage, AfterEvents, Header, Messages;
    OneMessage(body);
    OneMore(start, sent, Message(Header(body), body));
    HeaderIs(body);
    prox.SendMessage(body, DEM_READ, 0xffff_ffff);
  }

  method FlushNow(prox: OProxy, ghost start: Proxy, ghost sent: seq<ProxyEvent>)
    requires prox.Valid() && prox.View() == AfterEvents(start, sent)
    modifies prox
    ensures prox.Valid() && prox.View() == AfterEvents(start, sent + [Flush])
  {
    hide AfterFlush, AfterEvents;
    OneMore(start, sent, Flush);
    prox.TryFlush();
  }

  /** The server data and the lists. */
  method SendFirst(prox: OProxy, msg: NetMsg, k: Known, ghost start: Proxy)
    requires prox.Valid() && msg.Valid() && msg.data != prox.buffer && prox.View() == start
    requires Sendable(k) && msg.cursize == 0 && msg.maxsize == ROOM
    modifies prox, prox.buffer, msg`cursize, msg.data
    ensures prox.Valid() && msg.Valid() && msg.cursize == 0
    ensures prox.View() == AfterEvents(start, Messages(FirstBodies(k)) + [Flush])
  {
    hide Messages, ListBodies, FitsPages, Ends;
    NoEvents(start);
    hide AfterEvents;
    EndsHere(k);
    ghost var b1, b2, b3 := [k.serverdata], ListBodies(SVC_SOUNDLIST, k.sounds, NameList.MAX_LIST),
                            ListBodies(SVC_MODELLIST, k.models, NameList.MAX_LIST);
    MessagesAppend(b1, b2);
    MessagesAppend(b1 + b2, b3);
    SendBlock(prox, k.serverdata, start, []);
    assert [] + Messages(b1) == Messages(b1);
    SendListPages(prox, msg, SVC_SOUNDLIST, k.sounds, start, Messages(b1));
    SendListPages(prox, msg, SVC_MODELLIST, k.models, start, Messages(b1 + b2));
    FlushNow(prox, start, Messages(b1 + b2 + b3));
  }

  lemma SendableSizes(k: Known)
    requires Sendable(k)
    ensures |k.sounds| == |k.models| == NameList.MAX_LIST && Prespawn.Sized(k.state)
  {
  }

  lemma EndsHere(k: Known)
    requires Ends(k.sounds) && Ends(k.models)
    ensures |k.sounds| == |k.models| == NameList.MAX_LIST
  {
  }

  lemma NoEvents(p: Proxy)
    ensures AfterEvents(p, []) == p
  {
  }

  /** The message with the entities. */
  method SendEnts(prox: OProxy, msg: NetMsg, k: Known, ghost start: Proxy, ghost sent: seq<ProxyEvent>)
    requires prox.Valid() && msg.Valid() && msg.data != prox.buffer && prox.View() == AfterEvents(start, sent)
    requires Prespawn.Sized(k.state) && msg.cursize == 0 && msg.maxsize == ROOM
    modifies prox, prox.buffer, msg`cursize, msg.data
    ensures prox.Valid() && msg.Valid() && prox.View() == AfterEvents(start, sent + Messages([EntsBody(k)]))
  {
    hide Messages, AfterEvents, EntsBody, InitialRecords;
    SendInitialEnts(msg, k.state.fmt, k.state.baselines, k.ents);
    EntsWritten(k);
    SendBody(prox, msg, start, sent);
    OneMessage(EntsBody(k));
  }

  /** One more message after some. */
  lemma Joined(sent: seq<ProxyEvent>, bodies: seq<seq<Byte>>, body: seq<Byte>)
    ensures sent + Messages(bodies) + Messages([body]) == sent + Messages(bodies + [body])
  {
    hide Messages;
    MessagesAppend(bodies, [body]);
    assert sent + Messages(bodies) + Messages([body]) == sent + (Messages(bodies) + Messages([body]));
  }

  /** The pages of the start-up state, the players, the entities, and the command for the skins. */
  method SendLast(prox: OProxy, msg: NetMsg, k: Known, ghost start: Proxy)
    requires prox.Valid() && msg.Valid() && msg.data != prox.buffer
    requires Sendable(k) && Prespawn.Sized(k.state) && msg.cursize == 0 && msg.maxsize == ROOM
    requires |k.sounds| == |k.models| == NameList.MAX_LIST
    requires prox.View() == AfterEvents(start, Messages(FirstBodies(k)) + [Flush])
    modifies prox, prox.buffer, msg`cursize, msg.data
    ensures prox.Valid() && msg.Valid()
    ensures prox.View() == AfterEvents(start, Events(k))
  {
    hide Messages, PageBodies, FitsPages, Ends, AfterEvents, Prespawn.Items, FirstBodies, EntsBody;
    ghost var sent := Messages(FirstBodies(k)) + [Flush];
    ghost var b1 := PageBodies(Prespawn.Items(k.state, OWN_SLOT), Prespawn.TOTAL);
    ghost var b2 := b1 + [k.players];
    ghost var b3 := b2 + [EntsBody(k)];
    SendStatePages(prox, msg, k.state, start, sent);
    SendBlock(prox, k.players, start, sent + Messages(b1));
    Joined(sent, b1, k.players);
    SendEnts(prox, msg, k, start, sent + Messages(b2));
    Joined(sent, b2, EntsBody(k));
    SendBlock(prox, SKINS, start, sent + Messages(b3));
    Joined(sent, b3, SKINS);
    assert b3 + [SKINS] == LastBodies(k);
    SendFlushes(prox, k, start);
  }

  method SendFlushes(prox: OProxy, k: Known, ghost start: Proxy)
    requires prox.Valid() && Prespawn.Sized(k.state) && |k.sounds| == |k.models| == NameList.MAX_LIST
    requires prox.View() == AfterEvents(start, Messages(FirstBodies(k)) + [Flush] + Messages(LastBodies(k)))
    modifies prox
    ensures prox.Valid() && prox.View() == AfterEvents(start, Events(k))
  {
    hide Messages, AfterEvents, FirstBodies, LastBodies;
    ghost var sent := Messages(FirstBodies(k)) + [Flush] + Messages(LastBodies(k));
    FlushNow(prox, start, sent);
    FlushNow(prox, start, sent + [Flush]);
    assert sent + [Flush] + [Flush] == Events(k);
  }

  lemma EntsWritten(k: Known)
    requires Prespawn.Sized(k.state)
    ensures Clip([] + ([SVC_PACKETENTITIES]
                       + (InitialRecords(k.state.fmt, k.state.baselines, k.ents) + Short(0))), ROOM) == EntsBody(k)
  {
    hide InitialRecords, Short;
    var s := [SVC_PACKETENTITIES] + (InitialRecords(k.state.fmt, k.state.baselines, k.ents) + Short(0));
    assert [] + s == s;
  }

  /** Net_SendConnectionMVD: nothing at all before a map is loaded. */
  method SendConnection(prox: OProxy, mapLoaded: bool, k: Known, late: bool, tail: seq<Byte>)
    requires prox.Valid() && Sendable(k)
    modifies prox, prox.buffer
    ensures prox.Valid()
    ensures prox.View() == if mapLoaded
                           then ProxyFeed.AfterConnection(old(prox.View()), Events(k), if late then [] else tail)
                           else old(prox.View())
  {
    hide AfterFlush, AfterSend, AfterEvents, AfterMessage, Messages, ListBodies, PageBodies, EntsBody, Header, Storable;
    if !mapLoaded {
      return;
    }
    PagesEnd(k.state);
    EndsHere(k);
    prox.flushing := false;
    ghost var start := prox.View();
    var msg := new NetMsg(ROOM);
    ghost var sent: seq<ProxyEvent> := [];
    SendFirst(prox, msg, k, start);
    SendLast(prox, msg, k, start);
    if !late {
      prox.ProxySend(tail);
    } else {
      NoTail(prox.View());
    }
    if prox.flushing {
      prox.drop := true;
    } else {
      prox.TryFlush();
    }
  }

  lemma NoTail(p: Proxy)
    ensures AfterSend(p, []) == p
  {
  }

  /** The part of SV_ForwardStream that deals with one connection. */
  method ForwardTo(prox: OProxy, block: seq<Byte>, mapLoaded: bool, connecting: bool, k: Known,
                   late: bool, tail: seq<Byte>)
    requires prox.Valid() && Sendable(k)
    modifies prox, prox.buffer
    ensures prox.Valid()
    ensures prox.View() == ProxyFeed.AfterForward(old(prox.View()), block, mapLoaded && !connecting, Events(k),
                                        if late then [] else tail)
  {
    hide AfterFlush, AfterSend, ProxyFeed.AfterConnection, Events;
    if prox.flushing {
      if prox.buffersize == prox.bufferpos {
        if !connecting {
          SendConnection(prox, mapLoaded, k, late, tail);
        }
      } else {
        prox.TryFlush();
        return;
      }
    }
    if prox.drop {
      return;
    }
    prox.ProxySend(block);
    prox.TryFlush();
  }

  ghost predicate AllValid(proxies: seq<OProxy>)
    reads set i | 0 <= i < |proxies| :: proxies[i], set i | 0 <= i < |proxies| :: proxies[i].buffer
  {
    forall i :: 0 <= i < |proxies| ==> proxies[i].Valid()
  }

  /** No two connections share an object or a buffer. */
  ghost predicate Separate(proxies: seq<OProxy>) {
    forall i, j :: 0 <= i < j < |proxies| ==>
      proxies[i] != proxies[j] && proxies[i].buffer != proxies[j].buffer
  }

  /** SV_ForwardStream: dropped connections leave the list, and each of the others is served. */
  method ForwardStream(proxies: seq<OProxy>, block: seq<Byte>, mapLoaded: bool, connecting: bool,
                       k: Known, late: bool, tail: seq<Byte>)
    returns (kept: seq<OProxy>)
    requires AllValid(proxies) && Separate(proxies) && Sendable(k)
    modifies set i | 0 <= i < |proxies| :: proxies[i], set i | 0 <= i < |proxies| :: proxies[i].buffer
    ensures AllValid(proxies)
    ensures forall p :: p in kept <==> p in proxies && !old(p.drop)
    ensures forall i :: 0 <= i < |proxies| ==>
              proxies[i].View()
              == if old(proxies[i].drop) then old(proxies[i].View())
                 else ProxyFeed.AfterForward(old(proxies[i].View()), block, mapLoaded && !connecting, Events(k),
                                             if late then [] else tail)
  {
    hide ProxyFeed.AfterForward, Events, Sendable;
    SendableSizes(k);
    ghost var snapshot, able, rest := Events(k), mapLoaded && !connecting, if late then [] else tail;
    kept := [];
    for i := 0 to |proxies|
      invariant AllValid(proxies)
      invariant forall p :: p in kept <==> p in proxies[..i] && !old(p.drop)
      invariant forall j :: 0 <= j < i ==>
                  proxies[j].View()
                  == if old(proxies[j].drop) then old(proxies[j].View())
                     else ProxyFeed.AfterForward(old(proxies[j].View()), block, able, snapshot, rest)
      invariant forall j :: i <= j < |proxies| ==> proxies[j].View() == old(proxies[j].View())
    {
      if !proxies[i].drop {
        kept := kept + [proxies[i]];
        ForwardTo(proxies[i], block, mapLoaded, connecting, k, late, tail);
      }
    }
    assert proxies[..|proxies|] == proxies;
  }
}
