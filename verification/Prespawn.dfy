/**
 * The paged transfer of a server's start-up state (fteqtv/qw.c): five senders share one cursor, each
 * fills what is left of the page, and the sum of their counts is the cursor of the next page.
 */
module Prespawn {
  import opened Msg
  import opened Delta
  import opened DeltaCodec

  const MAX_CLIENTS: nat := 32
  const MAX_LIGHTSTYLES: nat := 64
  const MAX_STATICSOUNDS: nat := 256
  const MAX_STATICENTITIES: nat := 128
  /** The size a page is filled to. */
  const PAGE: nat := 768

  datatype Player = Player(userinfo: seq<Byte>, frags: int, ping: int, packetloss: Byte)
  datatype Sound = Sound(soundindex: nat, volume: Byte, attenuation: Byte, x: real, y: real, z: real)

  /**
   * The state that is sent.  `ownName` is what the viewer's own slot is called when the proxy plays the
   * viewer's part as a spectator, which it does unless a player is using the connection.
   */
  datatype MapState = MapState(
    players: seq<Player>, baselines: seq<Entity>, lightstyles: seq<seq<Byte>>, sounds: seq<Sound>,
    statics: seq<Entity>, fmt: Format, played: bool, ownName: seq<Byte>)

  ghost predicate Sized(m: MapState) {
    && |m.players| == MAX_CLIENTS && |m.baselines| == MAX_ENTITIES && |m.lightstyles| == MAX_LIGHTSTYLES
    && |m.sounds| == MAX_STATICSOUNDS && |m.statics| == MAX_STATICENTITIES
  }

  // ---------- Items ----------

  /** One entry: its bytes, and the room its sender asks for before writing it, if it asks. */
  datatype Item = Item(bytes: seq<Byte>, checked: bool, room: nat)

  /** Whether an entry is written to a page that already holds `used` bytes. */
  predicate Fits(item: Item, used: nat) {
    !item.checked || used + item.room <= PAGE
  }

  /** The conversion of an integer to a short. */
  function Word(n: int): (w: nat)
    ensures w < 0x1_0000
  {
    n % 0x1_0000
  }

  function PlayerTail(i: nat, frags: int, ping: int, packetloss: Byte): seq<Byte> {
    [14, i % 0x100] + Short(Word(frags)) + [36, i % 0x100] + Short(Word(ping)) + [53, i % 0x100, packetloss]
  }

  function PlayerBytes(i: nat, info: seq<Byte>, frags: int, ping: int, packetloss: Byte): seq<Byte> {
    [40, i % 0x100] + Long(i + 1) + info + [0] + PlayerTail(i, frags, ping, packetloss)
  }

  function UserItem(m: MapState, i: nat, thisplayer: int): Item
    requires i < |m.players|
  {
    if i == thisplayer && !m.played then
      Item(PlayerBytes(i, m.ownName, 9999, 0, 0), false, 0)
    else
      var p := m.players[i];
      Item(PlayerBytes(i, p.userinfo, p.frags, p.ping, p.packetloss), true, |p.userinfo|)
  }

  function BaselineItem(m: MapState, i: nat): Item
    requires i < |m.baselines|
  {
    var e := m.baselines[i];
    Item(if e.modelindex != 0 then [22] + Short(i) + BaselineBytes(m.fmt, e) else [], true, 16)
  }

  function LightItem(m: MapState, i: nat): Item
    requires i < |m.lightstyles|
  {
    Item([12, i % 0x100] + m.lightstyles[i] + [0], true, |m.lightstyles[i]|)
  }

  function SoundBytes(s: Sound): seq<Byte> {
    [s.soundindex % 0x100, s.volume, s.attenuation]
  }

  function SoundItem(m: MapState, i: nat): Item
    requires i < |m.sounds|
  {
    var s := m.sounds[i];
    Item(if s.soundindex != 0
         then [29] + CoordBytes(m.fmt, s.x) + CoordBytes(m.fmt, s.y) + CoordBytes(m.fmt, s.z)
              + SoundBytes(s)
         else [], true, 16)
  }

  function StaticItem(m: MapState, i: nat): Item
    requires i < |m.statics|
  {
    var e := m.statics[i];
    Item(if e.modelindex != 0 then [20] + BaselineBytes(m.fmt, e) else [], true, 16)
  }

  /** Where each sender's entries begin in the order of the cursor. */
  const BASELINES: nat := 32
  const LIGHTS: nat := 544
  const SOUNDS: nat := 608
  const STATICS: nat := 864
  const TOTAL: nat := 992

  /**
   * The entry at a cursor.  The first sender steps over the end of its section, so the baseline of
   * entity 0 is never sent.
   */
  function ItemAt(m: MapState, thisplayer: int, k: nat): Item
    requires Sized(m) && k < TOTAL
  {
    if k < BASELINES then UserItem(m, k, thisplayer)
    else if k == BASELINES then Item([], false, 0)
    else if k < LIGHTS then BaselineItem(m, k - BASELINES)
    else if k < SOUNDS then LightItem(m, k - LIGHTS)
    else if k < STATICS then SoundItem(m, k - SOUNDS)
    else StaticItem(m, k - STATICS)
  }

  /** All entries in order. */
  function Items(m: MapState, thisplayer: int): (s: seq<Item>)
    requires Sized(m)
    ensures |s| == TOTAL
    ensures forall k :: 0 <= k < TOTAL ==> s[k] == ItemAt(m, thisplayer, k)
  {
    seq(TOTAL, k requires 0 <= k < TOTAL => ItemAt(m, thisplayer, k))
  }

  // ---------- Pages ----------

  /** The bytes of entries `from` up to `to`. */
  function All(items: seq<Item>): seq<Byte> {
    if items == [] then [] else items[0].bytes + All(items[1..])
  }

  /** The cursor after a page that starts at `k` with `used` bytes taken. */
  function Stop(items: seq<Item>, k: nat, used: nat): (r: nat)
    requires k <= |items|
    ensures k <= r <= |items|
    decreases |items| - k
  {
    if k == |items| || !Fits(items[k], used) then k
    else Stop(items, k + 1, used + |items[k].bytes|)
  }

  /** The first cursor that is not sent within one section that ends at `end`. */
  function StopBy(items: seq<Item>, k: nat, end: nat, used: nat): (r: nat)
    requires k <= end <= |items|
    ensures k <= r <= end
    decreases end - k
  {
    if k == end || !Fits(items[k], used) then k
    else StopBy(items, k + 1, end, used + |items[k].bytes|)
  }

  lemma {:induction false} AllAppend(s: seq<Item>, t: seq<Item>)
    ensures All(s + t) == All(s) + All(t)
  {
    if s == [] {
      assert s + t == t;
    } else {
      assert (s + t)[1..] == s[1..] + t;
      AllAppend(s[1..], t);
    }
  }

  lemma AllNext(items: seq<Item>, a: nat, k: nat)
    requires a <= k < |items|
    ensures All(items[a..k + 1]) == All(items[a..k]) + items[k].bytes
  {
    assert items[a..k + 1] == items[a..k] + [items[k]];
    AllAppend(items[a..k], [items[k]]);
    assert All([items[k]]) == items[k].bytes + All([]);
  }

  lemma AllJoin(items: seq<Item>, a: nat, b: nat, c: nat)
    requires a <= b <= c <= |items|
    ensures All(items[a..c]) == All(items[a..b]) + All(items[b..c])
  {
    assert items[a..c] == items[a..b] + items[b..c];
    AllAppend(items[a..b], items[b..c]);
  }

  /** A page is filled section by section: each continues where the one before stopped. */
  lemma {:induction false} StopSplits(items: seq<Item>, k: nat, mid: nat, used: nat)
    requires k <= mid <= |items|
    ensures var r := StopBy(items, k, mid, used);
            Stop(items, k, used) == if r < mid then r else Stop(items, mid, used + |All(items[k..mid])|)
    decreases mid - k
  {
    if k == mid {
      assert items[k..mid] == [];
    } else if Fits(items[k], used) {
      StopSplits(items, k + 1, mid, used + |items[k].bytes|);
      assert items[k..mid][0] == items[k] && items[k..mid][1..] == items[k + 1..mid];
    }
  }

  /** The cursor after `n` pages that start empty. */
  function Cursor(items: seq<Item>, n: nat): (r: nat)
    ensures r <= |items|
  {
    if n == 0 then 0 else Stop(items, Cursor(items, n - 1), 0)
  }

  /** The bytes of the first `n` pages. */
  function Pages(items: seq<Item>, n: nat): seq<Byte> {
    if n == 0 then []
    else Pages(items, n - 1) + All(items[Cursor(items, n - 1)..Cursor(items, n)])
  }

  // ---------- Main results ----------

  /** After any number of pages exactly the entries before the cursor were sent, once and in order. */
  lemma {:induction false} PagesAreOnePass(items: seq<Item>, n: nat)
    ensures Pages(items, n) == All(items[..Cursor(items, n)])
  {
    if n == 0 {
      assert items[..0] == [];
    } else {
      PagesAreOnePass(items, n - 1);
      var a, b := Cursor(items, n - 1), Cursor(items, n);
      assert items[..a] == items[0..a] && items[..b] == items[0..b];
      AllJoin(items, 0, a, b);
    }
  }

  /** A page that starts empty moves the cursor exactly when the next entry fits an empty page. */
  lemma PageProgress(items: seq<Item>, k: nat)
    requires k < |items|
    ensures Stop(items, k, 0) > k <==> Fits(items[k], 0)
  {
  }

  lemma {:induction false} CursorReaches(items: seq<Item>, n: nat)
    requires forall k :: 0 <= k < |items| ==> Fits(items[k], 0)
    ensures Cursor(items, n) >= if n < |items| then n else |items|
  {
    if n > 0 {
      CursorReaches(items, n - 1);
      var k := Cursor(items, n - 1);
      if k < |items| {
        PageProgress(items, k);
      }
    }
  }

  lemma {:induction false} CursorStuck(items: seq<Item>, k: nat, n: nat)
    requires k < |items| && !Fits(items[k], 0)
    ensures Cursor(items, n) <= k
  {
    if n > 0 {
      CursorStuck(items, k, n - 1);
      NeverPast(items, Cursor(items, n - 1), k, 0);
    }
  }

  /** An entry too big for an empty page is too big for every page. */
  lemma {:induction false} NeverPast(items: seq<Item>, from: nat, k: nat, used: nat)
    requires from <= k < |items| && !Fits(items[k], 0)
    ensures Stop(items, from, used) <= k
    decreases k - from
  {
    if from < k && Fits(items[from], used) {
      NeverPast(items, from + 1, k, used + |items[from].bytes|);
    }
  }

  /** The paging loop ends if and only if every entry fits an empty page. */
  lemma PagingEnds(items: seq<Item>)
    ensures (exists n :: Cursor(items, n) == |items|) <==> (forall k :: 0 <= k < |items| ==> Fits(items[k], 0))
  {
    if forall k :: 0 <= k < |items| ==> Fits(items[k], 0) {
      CursorReaches(items, |items|);
    } else {
      var k :| 0 <= k < |items| && !Fits(items[k], 0);
      forall n
        ensures Cursor(items, n) != |items|
      {
        CursorStuck(items, k, n);
      }
    }
  }

  /**
   * For a server's state: the loop of Net_SendConnectionMVD ends if and only if no player other than
   * the proxy's own spectator has more than 768 bytes of user info (the buffers hold up to 1023), and
   * no light style is that long.  When it ends, the pages are together one pass over every entry.
   */
  lemma PrespawnEnds(m: MapState, thisplayer: int)
    requires Sized(m)
    ensures var items := Items(m, thisplayer);
            && ((exists n :: Cursor(items, n) == TOTAL) <==>
                  && (forall i :: 0 <= i < MAX_CLIENTS && (i != thisplayer || m.played)
                        ==> |m.players[i].userinfo| <= PAGE)
                  && (forall i :: 0 <= i < MAX_LIGHTSTYLES ==> |m.lightstyles[i]| <= PAGE))
            && (forall n :: Cursor(items, n) == TOTAL ==> Pages(items, n) == All(items))
  {
    hide Cursor, Pages, UserItem, BaselineItem, LightItem, SoundItem, StaticItem;
    var items := Items(m, thisplayer);
    PagingEnds(items);
    forall n | Cursor(items, n) == TOTAL
      ensures Pages(items, n) == All(items)
    {
      PagesAreOnePass(items, n);
      assert items[..TOTAL] == items;
    }
    EveryItemFits(m, thisplayer);
  }

  lemma EveryItemFits(m: MapState, thisplayer: int)
    requires Sized(m)
    ensures (forall k :: 0 <= k < TOTAL ==> Fits(Items(m, thisplayer)[k], 0)) <==>
              && (forall i :: 0 <= i < MAX_CLIENTS && (i != thisplayer || m.played)
                    ==> |m.players[i].userinfo| <= PAGE)
              && (forall i :: 0 <= i < MAX_LIGHTSTYLES ==> |m.lightstyles[i]| <= PAGE)
  {
    hide BaselineBytes, CoordBytes, Short, Long, PlayerTail;
    var items := Items(m, thisplayer);
    if forall k :: 0 <= k < TOTAL ==> Fits(items[k], 0) {
      forall i | 0 <= i < MAX_CLIENTS && (i != thisplayer || m.played)
        ensures |m.players[i].userinfo| <= PAGE
      {
        assert Fits(items[i], 0);
      }
      forall i | 0 <= i < MAX_LIGHTSTYLES
        ensures |m.lightstyles[i]| <= PAGE
      {
        assert Fits(items[LIGHTS + i], 0);
      }
    } else {
      var k :| 0 <= k < TOTAL && !Fits(items[k], 0);
      assert items[k] == ItemAt(m, thisplayer, k);
      assert k < BASELINES || LIGHTS <= k < SOUNDS;
      if k < BASELINES {
        assert |m.players[k].userinfo| > PAGE;
      } else {
        assert |m.lightstyles[k - LIGHTS]| > PAGE;
      }
    }
  }

  // ---------- The implementation ----------

  /** What a sender that starts at entry `i` of its section leaves in the message, and where it stops. */
  ghost predicate Sends(before: seq<Byte>, after: seq<Byte>, items: seq<Item>, k: nat, end: nat, cursize: nat, r: nat)
  {
    && k <= end <= |items|
    && r == StopBy(items, k, end, |before| + cursize)
    && after == before + All(items[k..r])
  }

  /** A sender's loop at entry `r`. */
  ghost predicate Sending(before: seq<Byte>, now: seq<Byte>, items: seq<Item>, k: nat, end: nat, cursize: nat, r: nat)
  {
    && k <= r <= end <= |items|
    && now == before + All(items[k..r])
    && StopBy(items, k, end, |before| + cursize) == StopBy(items, r, end, |now| + cursize)
  }

  lemma SendingStarts(before: seq<Byte>, items: seq<Item>, k: nat, end: nat, cursize: nat)
    requires k <= end <= |items|
    ensures Sending(before, before, items, k, end, cursize, k)
  {
    assert items[k..k] == [] && before + [] == before;
  }

  lemma SendingNext(before: seq<Byte>, now: seq<Byte>, items: seq<Item>, k: nat, end: nat, cursize: nat, r: nat)
    requires Sending(before, now, items, k, end, cursize, r) && r < end
    ensures |now| + |items[r].bytes| <= |before| + |All(items[k..])|
    ensures if Fits(items[r], |now| + cursize)
            then Sending(before, now + items[r].bytes, items, k, end, cursize, r + 1)
            else Sends(before, now, items, k, end, cursize, r)
  {
    hide All;
    AllNext(items, k, r);
    RoomFor(items, k, r);
    assert before + All(items[k..r]) + items[r].bytes == before + (All(items[k..r]) + items[r].bytes);
  }

  lemma SendingEnds(before: seq<Byte>, now: seq<Byte>, items: seq<Item>, k: nat, end: nat, cursize: nat)
    requires Sending(before, now, items, k, end, cursize, end)
    ensures Sends(before, now, items, k, end, cursize, end)
  {
  }

  /** There is room in the message for everything from entry `k` on. */
  ghost predicate Roomy(msg: NetMsg, items: seq<Item>, k: nat)
    requires msg.Valid() && k <= |items|
    reads msg
  {
    msg.cursize + |All(items[k..])| <= msg.maxsize
  }

  lemma RoomFor(items: seq<Item>, k: nat, r: nat)
    requires k <= r < |items|
    ensures |All(items[k..r])| + |items[r].bytes| <= |All(items[k..])|
  {
    AllNext(items, k, r);
    AllJoin(items, k, r + 1, |items|);
    assert items[k..|items|] == items[k..];
  }

  method WritePlayerTail(msg: NetMsg, i: nat, frags: int, ping: int, packetloss: Byte)
    requires msg.Valid()
    modifies msg`cursize, msg.data
    ensures msg.Valid()
    ensures msg.Contents() == Clip(old(msg.Contents()) + PlayerTail(i, frags, ping, packetloss), msg.maxsize)
  {
    hide Clip, Short;
    ghost var was := msg.Contents();
    assert was + [] == was == Clip(was, msg.maxsize) by {
      SmallerThanRoom(msg);
    }
    WriteNumbered(msg, 14, i, was, []);
    ghost var sent := [] + [14, i % 0x100];
    msg.WriteShort(Word(frags));
    ClipJoin(was, sent, Short(Word(frags)), msg.maxsize);
    sent := sent + Short(Word(frags));
    WriteNumbered(msg, 36, i, was, sent);
    sent := sent + [36, i % 0x100];
    msg.WriteShort(Word(ping));
    ClipJoin(was, sent, Short(Word(ping)), msg.maxsize);
    sent := sent + Short(Word(ping));
    WriteNumbered(msg, 53, i, was, sent);
    sent := sent + [53, i % 0x100];
    msg.WriteByte(packetloss);
    ClipJoin(was, sent, [packetloss], msg.maxsize);
    assert sent + [packetloss] == PlayerTail(i, frags, ping, packetloss);
  }

  lemma SmallerThanRoom(msg: NetMsg)
    requires msg.Valid()
    ensures Clip(msg.Contents(), msg.maxsize) == msg.Contents()
  {
  }

  /** The command of an entry and its number. */
  method WriteNumbered(msg: NetMsg, svc: Byte, i: nat, ghost was: seq<Byte>, ghost sent: seq<Byte>)
    requires msg.Valid() && msg.Contents() == Clip(was + sent, msg.maxsize)
    modifies msg`cursize, msg.data
    ensures msg.Valid() && msg.Contents() == Clip(was + (sent + [svc, i % 0x100]), msg.maxsize)
  {
    hide Clip;
    msg.WriteByte(svc);
    ClipJoin(was, sent, [svc], msg.maxsize);
    msg.WriteByte(i % 0x100);
    ClipJoin(was, sent + [svc], [i % 0x100], msg.maxsize);
    assert sent + [svc] + [i % 0x100] == sent + [svc, i % 0x100];
  }

  /** The commands that describe a player. */
  method WritePlayer(msg: NetMsg, i: nat, info: seq<Byte>, frags: int, ping: int, packetloss: Byte)
    requires msg.Valid()
    modifies msg`cursize, msg.data
    ensures msg.Valid()
    ensures msg.Contents() == Clip(old(msg.Contents()) + PlayerBytes(i, info, frags, ping, packetloss), msg.maxsize)
  {
    hide Clip, Long, PlayerTail;
    ghost var was := msg.Contents();
    SmallerThanRoom(msg);
    assert was + [] == was;
    WriteNumbered(msg, 40, i, was, []);
    ghost var sent := [] + [40, i % 0x100];
    msg.WriteLong(i + 1);
    ClipJoin(was, sent, Long(i + 1), msg.maxsize);
    sent := sent + Long(i + 1);
    msg.WriteString(info);
    ClipJoin(was, sent, info + [0], msg.maxsize);
    sent := sent + (info + [0]);
    WritePlayerTail(msg, i, frags, ping, packetloss);
    ClipJoin(was, sent, PlayerTail(i, frags, ping, packetloss), msg.maxsize);
    assert sent + PlayerTail(i, frags, ping, packetloss) == PlayerBytes(i, info, frags, ping, packetloss);
  }

  method WriteUser(msg: NetMsg, m: MapState, i: nat, thisplayer: int)
    requires msg.Valid() && i < |m.players|
    modifies msg`cursize, msg.data
    ensures msg.Valid()
    ensures msg.Contents() == Clip(old(msg.Contents()) + UserItem(m, i, thisplayer).bytes, msg.maxsize)
  {
    hide Clip, PlayerBytes;
    if i == thisplayer && !m.played {
      WritePlayer(msg, i, m.ownName, 9999, 0, 0);
    } else {
      var p := m.players[i];
      WritePlayer(msg, i, p.userinfo, p.frags, p.ping, p.packetloss);
    }
  }

  method WriteBaseline(msg: NetMsg, m: MapState, i: nat)
    requires msg.Valid() && i < |m.baselines|
    modifies msg`cursize, msg.data
    ensures msg.Valid()
    ensures msg.Contents() == Clip(old(msg.Contents()) + BaselineItem(m, i).bytes, msg.maxsize)
  {
    hide Clip, Short, BaselineBytes;
    ghost var was := msg.Contents();
    SmallerThanRoom(msg);
    assert was + [] == was;
    var e := m.baselines[i];
    if e.modelindex != 0 {
      msg.WriteByte(22);
      msg.WriteShort(i);
      ClipJoin(was, [22], Short(i), msg.maxsize);
      WriteEntityState(msg, m.fmt, e);
      ClipJoin(was, [22] + Short(i), BaselineBytes(m.fmt, e), msg.maxsize);
    }
  }

  method WriteLight(msg: NetMsg, m: MapState, i: nat)
    requires msg.Valid() && i < |m.lightstyles|
    modifies msg`cursize, msg.data
    ensures msg.Valid()
    ensures msg.Contents() == Clip(old(msg.Contents()) + LightItem(m, i).bytes, msg.maxsize)
  {
    hide Clip;
    ghost var was := msg.Contents();
    SmallerThanRoom(msg);
    assert was + [] == was;
    WriteNumbered(msg, 12, i, was, []);
    msg.WriteString(m.lightstyles[i]);
    ClipJoin(was, [] + [12, i % 0x100], m.lightstyles[i] + [0], msg.maxsize);
    assert [] + [12, i % 0x100] + (m.lightstyles[i] + [0]) == LightItem(m, i).bytes;
  }

  method WriteSound(msg: NetMsg, m: MapState, i: nat)
    requires msg.Valid() && i < |m.sounds|
    modifies msg`cursize, msg.data
    ensures msg.Valid()
    ensures msg.Contents() == Clip(old(msg.Contents()) + SoundItem(m, i).bytes, msg.maxsize)
  {
    hide Clip, CoordBytes, SoundBytes;
    ghost var was := msg.Contents();
    SmallerThanRoom(msg);
    assert was + [] == was;
    var s := m.sounds[i];
    if s.soundindex == 0 {
      return;
    }
    msg.WriteByte(29);
    ghost var sent := [29];
    WriteNextCoord(msg, m.fmt, s.x, was, sent);
    sent := sent + CoordBytes(m.fmt, s.x);
    WriteNextCoord(msg, m.fmt, s.y, was, sent);
    sent := sent + CoordBytes(m.fmt, s.y);
    WriteNextCoord(msg, m.fmt, s.z, was, sent);
    sent := sent + CoordBytes(m.fmt, s.z);
    WriteSoundBytes(msg, s, was, sent);
    assert sent + SoundBytes(s) == SoundItem(m, i).bytes;
  }

  method WriteNextCoord(msg: NetMsg, fmt: Format, c: real, ghost was: seq<Byte>, ghost sent: seq<Byte>)
    requires msg.Valid() && msg.Contents() == Clip(was + sent, msg.maxsize)
    modifies msg`cursize, msg.data
    ensures msg.Valid() && msg.Contents() == Clip(was + (sent + CoordBytes(fmt, c)), msg.maxsize)
  {
    hide Clip, CoordBytes;
    WriteCoord(msg, fmt, c);
    ClipJoin(was, sent, CoordBytes(fmt, c), msg.maxsize);
  }

  method WriteSoundBytes(msg: NetMsg, s: Sound, ghost was: seq<Byte>, ghost sent: seq<Byte>)
    requires msg.Valid() && msg.Contents() == Clip(was + sent, msg.maxsize)
    modifies msg`cursize, msg.data
    ensures msg.Valid() && msg.Contents() == Clip(was + (sent + SoundBytes(s)), msg.maxsize)
  {
    hide Clip;
    var index: Byte := s.soundindex % 0x100;
    msg.WriteByte(index);
    ClipJoin(was, sent, [index], msg.maxsize);
    msg.WriteByte(s.volume);
    ClipJoin(was, sent + [index], [s.volume], msg.maxsize);
    msg.WriteByte(s.attenuation);
    ClipJoin(was, sent + [index] + [s.volume], [s.attenuation], msg.maxsize);
    assert sent + [index] + [s.volume] + [s.attenuation] == sent + SoundBytes(s);
  }

  method WriteStatic(msg: NetMsg, m: MapState, i: nat)
    requires msg.Valid() && i < |m.statics|
    modifies msg`cursize, msg.data
    ensures msg.Valid()
    ensures msg.Contents() == Clip(old(msg.Contents()) + StaticItem(m, i).bytes, msg.maxsize)
  {
    hide Clip, BaselineBytes;
    ghost var was := msg.Contents();
    SmallerThanRoom(msg);
    assert was + [] == was;
    var e := m.statics[i];
    if e.modelindex != 0 {
      msg.WriteByte(20);
      WriteEntityState(msg, m.fmt, e);
      ClipJoin(was, [20], BaselineBytes(m.fmt, e), msg.maxsize);
    }
  }

  /** One turn of a sender's loop: the entry is written if it passes the check of its sender. */
  method SendEntry(m: MapState, thisplayer: int, msg: NetMsg, cursize: nat, k: nat) returns (ok: bool)
    requires Sized(m) && msg.Valid() && k < TOTAL
    requires msg.cursize + |ItemAt(m, thisplayer, k).bytes| <= msg.maxsize
    modifies msg`cursize, msg.data
    ensures msg.Valid() && ok == Fits(ItemAt(m, thisplayer, k), |old(msg.Contents())| + cursize)
    ensures msg.Contents() == if ok then old(msg.Contents()) + ItemAt(m, thisplayer, k).bytes else old(msg.Contents())
  {
    hide PlayerTail, BaselineBytes, CoordBytes, Long, Short;
    var size := msg.cursize + cursize;
    ok := true;
    if k < BASELINES {
      ok := (k == thisplayer && !m.played) || size + |m.players[k].userinfo| <= PAGE;
      if ok {
        WriteUser(msg, m, k, thisplayer);
      }
    } else if BASELINES < k < LIGHTS {
      ok := size + 16 <= PAGE;
      if ok {
        WriteBaseline(msg, m, k - BASELINES);
      }
    } else if LIGHTS <= k < SOUNDS {
      ok := size + |m.lightstyles[k - LIGHTS]| <= PAGE;
      if ok {
        WriteLight(msg, m, k - LIGHTS);
      }
    } else if SOUNDS <= k < STATICS {
      ok := size + 16 <= PAGE;
      if ok {
        WriteSound(msg, m, k - SOUNDS);
      }
    } else if STATICS <= k {
      ok := size + 16 <= PAGE;
      if ok {
        WriteStatic(msg, m, k - STATICS);
      }
    }
  }

  /** The loop of the five senders: `section` is where the entries of the sender begin. */
  method SendSection(m: MapState, thisplayer: int, msg: NetMsg, cursize: nat, section: nat, count: nat, i: nat)
    returns (r: nat)
    requires Sized(m) && msg.Valid() && section + count <= TOTAL && i <= count
    requires Roomy(msg, Items(m, thisplayer), section + i)
    modifies msg`cursize, msg.data
    ensures msg.Valid() && i <= r <= count
    ensures Sends(old(msg.Contents()), msg.Contents(), Items(m, thisplayer), section + i, section + count, cursize,
                  section + r)
  {
    hide ItemAt, Clip, All, Fits, Sending, Sends;
    ghost var before := msg.Contents();
    ghost var items := Items(m, thisplayer);
    r := i;
    SendingStarts(before, items, section + i, section + count, cursize);
    while r < count
      invariant i <= r <= count && msg.Valid()
      invariant Sending(before, msg.Contents(), items, section + i, section + count, cursize, section + r)
    {
      SendingNext(before, msg.Contents(), items, section + i, section + count, cursize, section + r);
      var ok := SendEntry(m, thisplayer, msg, cursize, section + r);
      if !ok {
        return;
      }
      r := r + 1;
    }
    SendingEnds(before, msg.Contents(), items, section + i, section + count, cursize);
  }

  /** A sender that stops before the end of its section stops at an entry that does not fit. */
  lemma {:induction false} StopByHalts(items: seq<Item>, k: nat, end: nat, used: nat)
    requires k <= end <= |items|
    ensures var r := StopBy(items, k, end, used); r < end ==> !Fits(items[r], used + |All(items[k..r])|)
    decreases end - k
  {
    var r := StopBy(items, k, end, used);
    if k < end && Fits(items[k], used) {
      StopByHalts(items, k + 1, end, used + |items[k].bytes|);
      assert items[k..r][0] == items[k] && items[k..r][1..] == items[k + 1..r];
    } else {
      assert items[k..k] == [];
    }
  }

  /**
   * How far a page has come: everything from cursor `k` up to `pos` is in the message, the page will
   * stop where it would if it went on from `pos`, and if `pos` lies before `sender`, it has stopped.
   */
  ghost predicate Reached(items: seq<Item>, k: nat, before: seq<Byte>, now: seq<Byte>, cursize: nat, pos: nat,
                          sender: nat)
  {
    && k <= pos <= |items|
    && now == before + All(items[k..pos])
    && Stop(items, k, |before| + cursize) == Stop(items, pos, |now| + cursize)
    && (pos < sender && pos < |items| ==> !Fits(items[pos], |now| + cursize))
  }

  lemma ReachedMore(items: seq<Item>, k: nat, before: seq<Byte>, mid: seq<Byte>, now: seq<Byte>, cursize: nat, pos: nat,
                    sender: nat, next: nat, r: nat)
    requires Reached(items, k, before, mid, cursize, pos, sender)
    requires sender <= pos && pos <= next <= |items|
    requires Sends(mid, now, items, pos, next, cursize, r)
    ensures Reached(items, k, before, now, cursize, r, next)
  {
    hide Stop, StopBy, All, Fits;
    StopSplits(items, pos, next, |mid| + cursize);
    StopByHalts(items, pos, next, |mid| + cursize);
    AllJoin(items, k, pos, r);
    assert now == before + All(items[k..r]);
    assert |mid| + cursize + |All(items[pos..r])| == |now| + cursize;
    if r < next {
      StopHere(items, r, |now| + cursize);
    }
  }

  lemma StopHere(items: seq<Item>, k: nat, used: nat)
    requires k < |items|
    ensures !Fits(items[k], used) ==> Stop(items, k, used) == k
    ensures items[k].bytes == [] && Fits(items[k], used) ==> Stop(items, k, used) == Stop(items, k + 1, used)
  {
  }

  /**
   * Any of the senders: outside its own section the cursor is returned as it is.
   */
  method Send(m: MapState, thisplayer: int, msg: NetMsg, cursize: nat, section: nat, count: nat, i: int,
              ghost k: nat, ghost before: seq<Byte>)
    returns (r: int)
    requires Sized(m) && msg.Valid() && section + count <= TOTAL && 0 <= section + i <= TOTAL && k <= TOTAL
    requires |before| + |All(Items(m, thisplayer)[k..])| <= msg.maxsize
    requires Reached(Items(m, thisplayer), k, before, msg.Contents(), cursize, section + i, section)
    modifies msg`cursize, msg.data
    ensures msg.Valid() && 0 <= section + r <= TOTAL && (r > count ==> r == i)
    ensures Reached(Items(m, thisplayer), k, before, msg.Contents(), cursize, section + r, section + count)
  {
    hide ItemAt, Stop, StopBy, Clip;
    if i < 0 || i >= count {
      return i;
    }
    ghost var items := Items(m, thisplayer);
    ghost var mid := msg.Contents();
    Remaining(items, k, section + i);
    r := SendSection(m, thisplayer, msg, cursize, section, count, i);
    ReachedMore(items, k, before, mid, msg.Contents(), cursize, section + i, section, section + count, section + r);
  }

  lemma Remaining(items: seq<Item>, k: nat, pos: nat)
    requires k <= pos <= |items|
    ensures |All(items[k..])| == |All(items[k..pos])| + |All(items[pos..])|
  {
    AllJoin(items, k, pos, |items|);
    assert items[k..|items|] == items[k..] && items[pos..|items|] == items[pos..];
  }

  /** SendCurrentUserinfos: after the last player the cursor skips one more entry. */
  method SendCurrentUserinfos(m: MapState, thisplayer: int, msg: NetMsg, cursize: nat, i: nat)
    returns (r: int)
    requires Sized(m) && msg.Valid() && i < TOTAL && i != BASELINES
    requires msg.cursize + |All(Items(m, thisplayer)[i..])| <= msg.maxsize
    modifies msg`cursize, msg.data
    ensures msg.Valid() && 0 <= r <= TOTAL
    ensures Reached(Items(m, thisplayer), i, old(msg.Contents()), msg.Contents(), cursize, r, BASELINES)
    ensures r != BASELINES
  {
    hide ItemAt, Stop, StopBy, Clip;
    ghost var items, before := Items(m, thisplayer), msg.Contents();
    assert items[i..i] == [] && before + [] == before;
    r := Send(m, thisplayer, msg, cursize, 0, MAX_CLIENTS, i, i, before);
    if i < MAX_CLIENTS && r == MAX_CLIENTS {
      SkippedEntry(m, thisplayer);
      StopHere(items, BASELINES, msg.cursize + cursize);
      AllNext(items, i, BASELINES);
      r := r + 1;
    }
  }

  lemma SkippedEntry(m: MapState, thisplayer: int)
    requires Sized(m)
    ensures Items(m, thisplayer)[BASELINES] == Item([], false, 0)
  {
  }

  /**
   * Prespawn: fills one page from cursor `start` and returns the cursor of the next, or -1 at the end.
   * The page is what the single pass would send from there until an entry no longer fits.
   */
  method Prespawn(m: MapState, cursize: nat, msg: NetMsg, start: nat, thisplayer: int) returns (r: int)
    requires Sized(m) && msg.Valid() && start < TOTAL && start != BASELINES
    requires msg.cursize + |All(Items(m, thisplayer)[start..])| <= msg.maxsize
    modifies msg`cursize, msg.data
    ensures msg.Valid()
    ensures var items := Items(m, thisplayer);
            var stop := Stop(items, start, |old(msg.Contents())| + cursize);
            && r == (if stop == TOTAL then -1 else stop)
            && msg.Contents() == old(msg.Contents()) + All(items[start..stop])
  {
    hide ItemAt, Stop, StopBy, Clip, Items, All, Reached, Fits;
    ghost var items, before := Items(m, thisplayer), msg.Contents();
    r := start;
    var bufnum: int := start;

    var ni := SendCurrentUserinfos(m, thisplayer, msg, cursize, bufnum);
    r := r + (ni - bufnum);
    bufnum := ni - MAX_CLIENTS;

    ni := Send(m, thisplayer, msg, cursize, BASELINES, MAX_ENTITIES, bufnum, start, before);
    r := r + (ni - bufnum);
    bufnum := ni - MAX_ENTITIES;

    ni := Send(m, thisplayer, msg, cursize, LIGHTS, MAX_LIGHTSTYLES, bufnum, start, before);
    r := r + (ni - bufnum);
    bufnum := ni - MAX_LIGHTSTYLES;

    ni := Send(m, thisplayer, msg, cursize, SOUNDS, MAX_STATICSOUNDS, bufnum, start, before);
    r := r + (ni - bufnum);
    bufnum := ni - MAX_STATICSOUNDS;

    ni := Send(m, thisplayer, msg, cursize, STATICS, MAX_STATICENTITIES, bufnum, start, before);
    r := r + (ni - bufnum);
    bufnum := ni - MAX_STATICENTITIES;

    PageEnds(items, start, before, msg.Contents(), cursize, r);
    if bufnum == 0 {
      return -1;
    }
  }

  lemma PageEnds(items: seq<Item>, k: nat, before: seq<Byte>, now: seq<Byte>, cursize: nat, pos: nat)
    requires Reached(items, k, before, now, cursize, pos, |items|)
    ensures Stop(items, k, |before| + cursize) == pos && now == before + All(items[k..pos])
  {
    hide All;
    if pos < |items| {
      StopHere(items, pos, |now| + cursize);
    }
  }

  /** No page ends at the one entry that is only stepped over, so the cursor never starts there. */
  lemma {:induction false} NeverStopsAtSkipped(m: MapState, thisplayer: int, n: nat)
    requires Sized(m)
    ensures Cursor(Items(m, thisplayer), n) != BASELINES
  {
    hide ItemAt, Stop, Items;
    if n > 0 {
      SkippedEntry(m, thisplayer);
      var items := Items(m, thisplayer);
      assert |items| == TOTAL;
      NoStopAt(items, Cursor(items, n - 1), BASELINES, 0);
    }
  }

  lemma {:induction false} NoStopAt(items: seq<Item>, from: nat, k: nat, used: nat)
    requires from <= |items| && k < |items| && !items[k].checked
    ensures Stop(items, from, used) != k
    decreases |items| - from
  {
    if from < |items| && Fits(items[from], used) {
      NoStopAt(items, from + 1, k, used + |items[from].bytes|);
    }
  }

  // ---------- Room for a page ----------

  /** The sizes the proxy's own buffers allow. */
  ghost predicate Stored(m: MapState) {
    && Sized(m) && |m.ownName| <= 1100
    && (forall i :: 0 <= i < MAX_CLIENTS ==> |m.players[i].userinfo| < 1024)
    && (forall i :: 0 <= i < MAX_LIGHTSTYLES ==> |m.lightstyles[i]| < 64)
  }

  lemma BaselineSize(fmt: Format, e: Entity)
    ensures |BaselineBytes(fmt, e)| <= 22
  {
    assert |CoordBytes(fmt, e.origin0)| <= 4 && |AngleBytes(fmt, e.angles0)| <= 2;
    assert |CoordBytes(fmt, e.origin1)| <= 4 && |AngleBytes(fmt, e.angles1)| <= 2;
    assert |CoordBytes(fmt, e.origin2)| <= 4 && |AngleBytes(fmt, e.angles2)| <= 2;
  }

  /** The size of an entry, by section. */
  function SizeBound(k: nat): nat {
    if k < BASELINES then 1118 else if k < LIGHTS then 25 else if k < SOUNDS then 66 else if k < STATICS then 16 else 23
  }

  lemma ItemSize(m: MapState, thisplayer: int, k: nat)
    requires Stored(m) && k < TOTAL
    ensures |ItemAt(m, thisplayer, k).bytes| <= SizeBound(k)
  {
    hide BaselineBytes, CoordBytes, Short, Long;
    if BASELINES < k < LIGHTS {
      BaselineSize(m.fmt, m.baselines[k - BASELINES]);
    } else if SOUNDS <= k < STATICS {
      var s := m.sounds[k - SOUNDS];
      CoordSize(m.fmt, s.x);
      CoordSize(m.fmt, s.y);
      CoordSize(m.fmt, s.z);
    } else if STATICS <= k {
      BaselineSize(m.fmt, m.statics[k - STATICS]);
    }
  }

  lemma CoordSize(fmt: Format, c: real)
    ensures |CoordBytes(fmt, c)| <= 4
  {
  }

  /** What is left from cursor `k` on. */
  function Left(k: nat): nat {
    if k < BASELINES then (BASELINES - k) * 1118 + 24064
    else if k < LIGHTS then (LIGHTS - k) * 25 + 11264
    else if k < SOUNDS then (SOUNDS - k) * 66 + 7040
    else if k < STATICS then (STATICS - k) * 16 + 2944
    else if k < TOTAL then (TOTAL - k) * 23 else 0
  }

  /** The whole start-up state fits the message buffer of Net_SendConnectionMVD. */
  lemma {:induction false} EverythingFits(m: MapState, thisplayer: int, k: nat)
    requires Stored(m) && k <= TOTAL
    ensures |All(Items(m, thisplayer)[k..])| <= Left(k) <= 8 * 8192
    decreases TOTAL - k
  {
    hide ItemAt, Items;
    var items := Items(m, thisplayer);
    if k < TOTAL {
      EverythingFits(m, thisplayer, k + 1);
      ItemSize(m, thisplayer, k);
      assert items[k] == ItemAt(m, thisplayer, k);
      assert items[k..][0] == items[k] && items[k..][1..] == items[k + 1..];
    }
  }
}
