/**
 * Which packets of a stream reach ParseMessage (fteqtv/source.c): packets of proxy data are parsed as soon as
 * they are forwarded by a read, the others when they are due.  History: the packets parsed, by their index.
 */
module StreamParse {
  import opened Msg
  import opened ProxyBuffer
  import opened StreamInput

  /** `caught` are the packets that had not been forwarded when they were due. */
  datatype Parsing = Parsing(reading: Reading, given: seq<nat>, caught: set<nat>)

  ghost predicate AllWellFormed(packets: seq<seq<Byte>>) {
    forall p :: p in packets ==> WellFormed(p)
  }

  function TypeOf(p: seq<Byte>): Byte {
    if |p| > 1 then p[1] else 0
  }

  function TypeAt(packets: seq<seq<Byte>>, k: nat): Byte {
    if k < |packets| then TypeOf(packets[k]) else 0
  }

  /** The packets of proxy data from `a` up to `b`. */
  function DataIn(packets: seq<seq<Byte>>, a: nat, b: nat): (r: seq<nat>)
    decreases b
  {
    if a >= b || b > |packets| then []
    else DataIn(packets, a, b - 1) + if IsData(TypeOf(packets[b - 1])) then [b - 1] else []
  }

  function Pick(packets: seq<seq<Byte>>, ks: seq<nat>): (r: seq<seq<Byte>>)
    requires forall i :: 0 <= i < |ks| ==> ks[i] < |packets|
  {
    seq(|ks|, i requires 0 <= i < |ks| => packets[ks[i]])
  }

  ghost function Next(packets: seq<seq<Byte>>, demo: bool, p: Parsing, e: Event): Parsing {
    var r := Happen(packets, p.reading, e);
    match e
    case Read(n, late) =>
      Parsing(r, p.given + if demo then [] else DataIn(packets, p.reading.passed, r.passed), p.caught)
    case Parse =>
      var k := p.reading.parsed;
      if r.parsed == k then p.(reading := r)
      else
        Parsing(r, p.given + if ParsedWhenDue(TypeAt(packets, k), demo) then [k] else [],
                p.caught + if r.passed > p.reading.passed then {k} else {})
  }

  ghost function Runs(packets: seq<seq<Byte>>, demo: bool, p: Parsing, events: seq<Event>): Parsing
    decreases |events|
  {
    if events == [] then p else Runs(packets, demo, Next(packets, demo, p, events[0]), events[1..])
  }

  function Begin(): Parsing {
    Parsing(Start(), [], {})
  }

  // ---------- The bytes that EarlyParse hands over ----------

  lemma {:induction false} DataAppend(packets: seq<seq<Byte>>, a: nat, b: nat, c: nat)
    requires a <= b <= c <= |packets|
    ensures DataIn(packets, a, c) == DataIn(packets, a, b) + DataIn(packets, b, c)
  {
    if b < c {
      DataAppend(packets, a, b, c - 1);
    }
  }

  lemma {:induction false} DataBounds(packets: seq<seq<Byte>>, a: nat, b: nat)
    requires b <= |packets|
    ensures forall i :: 0 <= i < |DataIn(packets, a, b)| ==> a <= DataIn(packets, a, b)[i] < b
  {
    if a < b {
      DataBounds(packets, a, b - 1);
    }
  }

  /** The packets that are parsed early are those of the indices recorded: what a read hands on, bytes and all. */
  lemma {:induction false} UrgentOfBlock(packets: seq<seq<Byte>>, a: nat, b: nat)
    requires AllWellFormed(packets) && a <= b <= |packets|
    ensures forall i :: 0 <= i < |DataIn(packets, a, b)| ==> DataIn(packets, a, b)[i] < |packets|
    ensures Urgent(Flat(packets[a..b])) == Pick(packets, DataIn(packets, a, b))
    decreases b - a
  {
    hide EarlyLength, WellFormed, IsData, Flat, Pick;
    DataBounds(packets, a, b);
    if a == b {
      assert packets[a..b] == [];
      FlatNone();
      NothingUrgent();
      PickNone(packets);
    } else {
      var p, rest := packets[a], Flat(packets[a + 1..b]);
      assert packets[a..b] == [p] + packets[a + 1..b];
      FlatAppend([p], packets[a + 1..b]);
      FlatOne(p);
      assert p in packets;
      WholePacketFound(p, rest);
      TypeFirst(p, rest);
      UrgentOfBlock(packets, a + 1, b);
      DataAppend(packets, a, a + 1, b);
      DataBounds(packets, a + 1, b);
      PickFirst(packets, a, DataIn(packets, a + 1, b));
      OneData(packets, a);
    }
  }

  lemma OneData(packets: seq<seq<Byte>>, a: nat)
    requires a < |packets|
    ensures DataIn(packets, a, a + 1) == if IsData(TypeOf(packets[a])) then [a] else []
  {
    assert DataIn(packets, a, a) == [];
  }

  lemma TypeFirst(p: seq<Byte>, rest: seq<Byte>)
    requires WellFormed(p) && EarlyLength(p + rest) == |p|
    ensures Urgent(p + rest) == (if IsData(TypeOf(p)) then [p] else []) + Urgent(rest)
  {
    hide IsData;
    assert (p + rest)[|p|..] == rest && (p + rest)[..|p|] == p && (p + rest)[1] == p[1];
  }

  lemma PickNone(packets: seq<seq<Byte>>)
    ensures Pick(packets, []) == []
  {
  }

  lemma PickFirst(packets: seq<seq<Byte>>, a: nat, ks: seq<nat>)
    requires a < |packets| && forall i :: 0 <= i < |ks| ==> ks[i] < |packets|
    ensures Pick(packets, [a] + ks) == [packets[a]] + Pick(packets, ks)
    ensures Pick(packets, [] + ks) == [] + Pick(packets, ks)
  {
    assert [] + ks == ks;
  }

  // ---------- How often a packet is parsed ----------

  /** The number of times packet `k` has been given to ParseMessage. */
  ghost function Times(given: seq<nat>, k: nat): nat {
    multiset(given)[k]
  }

  lemma TimesMore(s: seq<nat>, t: seq<nat>, k: nat)
    ensures Times(s + t, k) == Times(s, k) + Times(t, k)
  {
  }

  lemma TimesFew(j: nat, k: nat)
    ensures Times([], k) == 0 && Times([j], k) == if j == k then 1 else 0
  {
  }

  /** A packet of another kind is parsed once it is due, one of proxy data as soon as a read forwards it. */
  ghost function Expected(packets: seq<seq<Byte>>, demo: bool, p: Parsing, k: nat): nat
    requires k < |packets|
  {
    var t := TypeOf(packets[k]);
    if ParsedWhenDue(t, demo) then if k < p.reading.parsed then 1 else 0
    else if IsData(t) && k < p.reading.passed && k !in p.caught then 1
    else 0
  }

  ghost predicate Tracked(packets: seq<seq<Byte>>, demo: bool, p: Parsing) {
    && OnTrack(packets, p.reading)
    && (forall k :: k in p.caught ==> k < p.reading.parsed)
    && (forall k :: 0 <= k < |packets| ==> Times(p.given, k) == Expected(packets, demo, p, k))
  }

  lemma {:induction false} DataTimes(packets: seq<seq<Byte>>, a: nat, b: nat, k: nat)
    requires b <= |packets|
    ensures Times(DataIn(packets, a, b), k) == if a <= k < b && IsData(TypeOf(packets[k])) then 1 else 0
  {
    hide IsData, Times;
    if a < b {
      DataTimes(packets, a, b - 1, k);
      var last := if IsData(TypeOf(packets[b - 1])) then [b - 1] else [];
      TimesFew(b - 1, k);
      TimesMore(DataIn(packets, a, b - 1), last, k);
    } else {
      TimesFew(0, k);
    }
  }

  lemma NextTracked(packets: seq<seq<Byte>>, demo: bool, p: Parsing, e: Event)
    requires Tracked(packets, demo, p)
    ensures Tracked(packets, demo, Next(packets, demo, p, e))
  {
    hide OnTrack, Happen, Times, IsData, ParsedWhenDue;
    HappenOnTrack(packets, p.reading, e);
    var q := Next(packets, demo, p, e);
    Counters(packets, p.reading, e);
    forall k: nat | k < |packets|
      ensures Times(q.given, k) == Expected(packets, demo, q, k)
    {
      assert Times(p.given, k) == Expected(packets, demo, p, k);
      NextTimes(packets, demo, p, e, k);
    }
  }

  lemma NextTimes(packets: seq<seq<Byte>>, demo: bool, p: Parsing, e: Event, k: nat)
    requires OnTrack(packets, p.reading) && k < |packets|
    requires (forall k :: k in p.caught ==> k < p.reading.parsed)
    requires Times(p.given, k) == Expected(packets, demo, p, k)
    ensures var q := Next(packets, demo, p, e); Times(q.given, k) == Expected(packets, demo, q, k)
  {
    hide OnTrack, Happen, Times, DataIn;
    Counters(packets, p.reading, e);
    var q := Next(packets, demo, p, e);
    match e
    case Read(n, late) =>
      var more := if demo then [] else DataIn(packets, p.reading.passed, q.reading.passed);
      DataTimes(packets, p.reading.passed, q.reading.passed, k);
      TimesFew(0, k);
      TimesMore(p.given, more, k);
    case Parse =>
      var due := p.reading.parsed;
      if q.reading.parsed > due {
        var more := if ParsedWhenDue(TypeAt(packets, due), demo) then [due] else [];
        TimesFew(due, k);
        TimesMore(p.given, more, k);
      }
  }

  /** What an event does to the counters. */
  lemma Counters(packets: seq<seq<Byte>>, w: Reading, e: Event)
    requires OnTrack(packets, w)
    ensures var x := Happen(packets, w, e);
            && w.parsed <= w.passed <= x.passed <= |packets| && w.parsed <= x.parsed <= x.passed
            && (e.Read? ==> x.parsed == w.parsed && (e.late ==> x.passed == w.passed))
            && (e.Parse? ==> x.parsed <= w.parsed + 1)
            && (e.Parse? ==> x.passed == if x.parsed > w.passed then w.passed + 1 else w.passed)
  {
    hide Flat, WellFormed, WholeRuns, RunLength, Whole, Complete;
    match e
    case Read(n, late) =>
      ReadOnTrack(packets, w, n, late);
      if !late && w.arrived <= |Flat(packets)| && |w.input.buffer| <= MAX_PROXY_BUFFER {
        EarlyReading(packets, w.passed, Happen(packets, w, e).arrived);
      }
    case Parse => ParseOnTrack(packets, w);
  }

  lemma {:induction false} RunsTracked(packets: seq<seq<Byte>>, demo: bool, p: Parsing, events: seq<Event>)
    requires Tracked(packets, demo, p)
    ensures Tracked(packets, demo, Runs(packets, demo, p, events))
    decreases |events|
  {
    hide Tracked, Next;
    if events != [] {
      NextTracked(packets, demo, p, events[0]);
      RunsTracked(packets, demo, Next(packets, demo, p, events[0]), events[1..]);
    }
  }

  // ---------- Main results ----------

  /**
   * In every run no packet is parsed twice, and none of types 0, 2 and 7 at all. Of the packets of other types that
   * were destroyed, each was parsed exactly once, unless it is proxy data (type 6 with a bit above the type), no demo
   * is played, and it was not forwarded before it was due; then it is never parsed.
   */
  lemma ParsedOnce(packets: seq<seq<Byte>>, demo: bool, events: seq<Event>)
    requires AllWellFormed(packets)
    ensures var p := Runs(packets, demo, Begin(), events);
            && (forall k :: 0 <= k < |packets| ==> Times(p.given, k) <= 1)
            && (forall k :: 0 <= k < |packets| && TypeOf(packets[k]) % 8 in {0, 2, 7} ==> Times(p.given, k) == 0)
            && (forall k :: 0 <= k < |packets| && k < p.reading.parsed && TypeOf(packets[k]) % 8 in {1, 3, 4, 5, 6} ==>
                  (Times(p.given, k) == 1
                   <==> demo || TypeOf(packets[k]) % 8 != 6 || TypeOf(packets[k]) < 8 || k !in p.caught))
  {
    hide Flat, WellFormed, WholeRuns;
    StartOnTrack(packets);
    RunsTracked(packets, demo, Begin(), events);
    var p := Runs(packets, demo, Begin(), events);
    assert p.reading.parsed <= p.reading.passed <= |packets|;
  }

  /** Without late forwarding every packet has been forwarded before it is due. */
  lemma {:induction false} NothingCaught(packets: seq<seq<Byte>>, demo: bool, p: Parsing, events: seq<Event>)
    requires CaughtUp(packets, p.reading) && forall i :: 0 <= i < |events| && events[i].Read? ==> !events[i].late
    ensures Runs(packets, demo, p, events).caught == p.caught
    decreases |events|
  {
    hide CaughtUp, OnTrack, Happen;
    if events != [] {
      StaysCaughtUp(packets, p.reading, events[0]);
      NothingCaught(packets, demo, Next(packets, demo, p, events[0]), events[1..]);
    }
  }

  /** So every packet is parsed exactly once, whatever the sizes of the reads. */
  lemma EarlyParsesAll(packets: seq<seq<Byte>>, demo: bool, events: seq<Event>)
    requires AllWellFormed(packets) && forall i :: 0 <= i < |events| && events[i].Read? ==> !events[i].late
    ensures var p := Runs(packets, demo, Begin(), events);
            forall k :: 0 <= k < |packets| && k < p.reading.parsed && TypeOf(packets[k]) % 8 in {1, 3, 4, 5, 6} ==>
              Times(p.given, k) == 1
  {
    hide WellFormed, OnTrack, CaughtUp, Runs, IsData;
    ParsedOnce(packets, demo, events);
    StartCaughtUp(packets);
    NothingCaught(packets, demo, Begin(), events);
  }

  /** Under late forwarding a packet of proxy data is destroyed without having been parsed. */
  lemma LateDataIsLost(p: seq<Byte>)
    requires WellFormed(p) && IsData(p[1]) && |p| <= MAX_PROXY_BUFFER
    ensures var q := Runs([p], false, Begin(), [Read(|p|, true), Parse]);
            q.reading.parsed == 1 && q.reading.passed == 1 && Times(q.given, 0) == 0
  {
    hide WellFormed, OnTrack, Flat, Happen, RunLength, IsData;
    var packets := [p];
    assert AllWellFormed(packets);
    StartOnTrack(packets);
    FlatOne(p);
    AllArrive(packets, true);
    var w := Happen(packets, Start(), Read(|p|, true));
    DueIsParsed(p, w);
    var events := [Read(|p|, true), Parse];
    var q1 := Next(packets, false, Begin(), events[0]);
    assert events[1..] == [Parse];
    assert q1.reading == w && q1.given == [];
    OneMore(packets, q1);
  }

  lemma DueIsParsed(p: seq<Byte>, w: Reading)
    requires OnTrack([p], w) && w.arrived == |p| && w.parsed == w.passed == 0
    ensures var x := Happen([p], w, Parse); x.parsed == 1 && x.passed == 1
  {
    hide WellFormed, Flat, RunLength, WholeRuns;
    FlatOne(p);
    RunFindsPacket([p], 0, |p|);
    assert [p][..1] == [p];
    ParseOnTrack([p], w);
  }

  lemma OneMore(packets: seq<seq<Byte>>, p: Parsing)
    ensures Runs(packets, false, p, [Parse]) == Next(packets, false, p, Parse)
  {
    assert [Parse][1..] == [];
  }
}
