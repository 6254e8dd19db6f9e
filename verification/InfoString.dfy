/**
 * Info strings (fteqtv/rcon.c): keys and values in one string of limited size, separated by backslashes.
 */
module InfoString {
  import opened Msg

  const SLASH: Byte := 92
  const QUOTE: Byte := 34
  const MAX_INFO_KEY: nat := 64
  /** The size of the buffers for keys and values within the functions. */
  const SCRATCH: nat := 1024

  datatype Pair = Pair(key: seq<Byte>, value: seq<Byte>)

  // ---------- The code, on the characters before the terminator ----------

  /** The characters up to the next backslash. */
  function Part(s: seq<Byte>): (r: seq<Byte>)
    ensures |r| <= |s|
  {
    if s == [] || s[0] == SLASH then [] else [s[0]] + Part(s[1..])
  }

  /** What ends a part that does not reach the end of the string. */
  lemma {:induction false} PartEnds(s: seq<Byte>)
    ensures |Part(s)| < |s| ==> s[|Part(s)|] == SLASH
  {
    if s != [] && s[0] != SLASH {
      PartEnds(s[1..]);
    }
  }

  /** The first key and value, and the string from the backslash after them; a key alone is no entry. */
  function Entry(s: seq<Byte>): (r: Option<(Pair, seq<Byte>)>)
    ensures r.Some? ==> |r.value.1| < |s| && r.value.1 == s[|s| - |r.value.1|..]
  {
    var t := if s != [] && s[0] == SLASH then s[1..] else s;
    var key := Part(t);
    if |key| == |t| then None
    else
      var u := t[|key| + 1..];
      var value := Part(u);
      assert u[|value|..] == s[|s| - |u[|value|..]|..];
      Some((Pair(key, value), u[|value|..]))
  }

  /** Info_ValueForKey with a buffer of `size` characters. */
  function ValueOf(s: seq<Byte>, key: seq<Byte>, size: nat): seq<Byte>
    decreases |s|
  {
    match Entry(s)
    case None => []
    case Some((pair, rest)) =>
      if |pair.key| + 2 >= SCRATCH || (pair.value != [] && |pair.value| + 2 >= size) then []
      else if pair.key == key then pair.value
      else if rest == [] then []
      else ValueOf(rest, key, size)
  }

  /** Info_RemoveKey for a key without a backslash. */
  function RemoveFrom(s: seq<Byte>, key: seq<Byte>): (r: seq<Byte>)
    ensures |r| <= |s|
    decreases |s|
  {
    match Entry(s)
    case None => s
    case Some((pair, rest)) =>
      if pair.key == key then rest
      else if rest == [] then s
      else s[..|s| - |rest|] + RemoveFrom(rest, key)
  }

  function Removed(s: seq<Byte>, key: seq<Byte>): (r: seq<Byte>)
    ensures |r| <= |s|
  {
    if SLASH in key then s else RemoveFrom(s, key)
  }

  /** Characters up to code 13 are not copied. */
  function Printable(s: seq<Byte>): (r: seq<Byte>)
    ensures |r| <= |s| && (forall c :: c in r <==> c in s && c > 13)
  {
    if s == [] then []
    else Printable(s[..|s| - 1]) + if s[|s| - 1] > 13 then [s[|s| - 1]] else []
  }

  predicate Legal(key: seq<Byte>, value: seq<Byte>) {
    && SLASH !in key && SLASH !in value && QUOTE !in key && QUOTE !in value
    && |key| < MAX_INFO_KEY && |value| < MAX_INFO_KEY
  }

  function Coded(key: seq<Byte>, value: seq<Byte>): seq<Byte> {
    [SLASH] + key + [SLASH] + value
  }

  /** Info_SetValueForStarKey with a buffer of `max` characters. */
  function SetIn(s: seq<Byte>, key: seq<Byte>, value: seq<Byte>, max: nat): seq<Byte> {
    if !Legal(key, value) then s
    else
      var v := ValueOf(s, key, SCRATCH);
      if v != [] && |value| - |v| + |s| + 1 > max then s
      else
        var r := Removed(s, key);
        if value == [] then r
        else if |Coded(key, value)| + |r| + 1 > max then r
        else r + Printable(Coded(key, value))
  }

  // ---------- The string as a list of pairs ----------

  function Text(ps: seq<Pair>): seq<Byte> {
    if ps == [] then [] else Coded(ps[0].key, ps[0].value) + Text(ps[1..])
  }

  /** A string may lack the backslash in front of its first key. */
  function Joined(ps: seq<Pair>, lead: bool): seq<Byte> {
    var s := Text(ps);
    if lead || s == [] then s else s[1..]
  }

  ghost predicate Plain(ps: seq<Pair>) {
    forall p :: p in ps ==> SLASH !in p.key && SLASH !in p.value
  }

  ghost predicate Distinct(ps: seq<Pair>) {
    forall i, j :: 0 <= i < j < |ps| ==> ps[i].key != ps[j].key
  }

  ghost predicate NoEmpty(ps: seq<Pair>) {
    forall p :: p in ps ==> p.value != []
  }

  function Find(ps: seq<Pair>, key: seq<Byte>): Option<seq<Byte>> {
    if ps == [] then None
    else if ps[0].key == key then Some(ps[0].value)
    else Find(ps[1..], key)
  }

  /** The list without the first pair with a key. */
  function Without(ps: seq<Pair>, key: seq<Byte>): seq<Pair> {
    if ps == [] then []
    else if ps[0].key == key then ps[1..]
    else [ps[0]] + Without(ps[1..], key)
  }

  lemma {:induction false} PartOf(a: seq<Byte>, rest: seq<Byte>)
    requires SLASH !in a && (rest == [] || rest[0] == SLASH)
    ensures Part(a + rest) == a
  {
    if a == [] {
      assert a + rest == rest;
    } else {
      assert (a + rest)[1..] == a[1..] + rest;
      PartOf(a[1..], rest);
    }
  }

  /** A pair in front of the rest of a string is its first entry. */
  lemma EntryOf(p: Pair, rest: seq<Byte>)
    requires SLASH !in p.key && SLASH !in p.value && (rest == [] || rest[0] == SLASH)
    ensures Entry(Coded(p.key, p.value) + rest) == Some((p, rest))
    ensures p.key != [] ==> Entry((Coded(p.key, p.value) + rest)[1..]) == Some((p, rest))
  {
    hide Part, Entry;
    var s := Coded(p.key, p.value) + rest;
    var u := p.value + rest;
    var t := p.key + ([SLASH] + u);
    assert s[1..] == t;
    PartOf(p.key, [SLASH] + u);
    PartOf(p.value, rest);
    assert t[|p.key| + 1..] == u;
    assert u[|p.value|..] == rest;
    EntryIs(s, t);
    if p.key != [] {
      assert t[0] == p.key[0] && p.key[0] in p.key;
      EntryIs(t, t);
    }
  }

  lemma TextStarts(ps: seq<Pair>)
    ensures Text(ps) == [] || Text(ps)[0] == SLASH
    ensures Text(ps) == [] <==> ps == []
  {
  }

  /** The first entry of a string that stands for a list of pairs. */
  lemma EntryOfJoined(ps: seq<Pair>, lead: bool)
    requires Plain(ps) && (!lead && ps != [] ==> ps[0].key != [])
    ensures Entry(Joined(ps, lead)) == if ps == [] then None else Some((ps[0], Text(ps[1..])))
  {
    if ps != [] {
      TextStarts(ps[1..]);
      EntryOf(ps[0], Text(ps[1..]));
    }
  }

  lemma {:induction false} ValueOfJoined(ps: seq<Pair>, lead: bool, key: seq<Byte>, size: nat)
    requires Plain(ps) && (!lead && ps != [] ==> ps[0].key != [])
    requires forall p :: p in ps ==> |p.key| + 2 < SCRATCH && |p.value| + 2 < size
    ensures ValueOf(Joined(ps, lead), key, size) == match Find(ps, key) case None => [] case Some(v) => v
  {
    hide Entry, Text;
    EntryOfJoined(ps, lead);
    if ps != [] {
      var rest := ps[1..];
      TextStarts(rest);
      assert Joined(rest, true) == Text(rest) && ps[0] in ps;
      if rest != [] {
        ValueOfJoined(rest, true, key, size);
      }
    }
  }

  /** Removing a key from a string removes its first pair; what comes next then leads with its backslash. */
  lemma {:induction false} RemovedFromJoined(ps: seq<Pair>, lead: bool, key: seq<Byte>)
    requires Plain(ps) && (!lead && ps != [] ==> ps[0].key != [])
    ensures RemoveFrom(Joined(ps, lead), key)
            == Joined(Without(ps, key), lead || (ps != [] && ps[0].key == key))
  {
    hide Entry, Text, Joined, RemoveFrom;
    EntryOfJoined(ps, lead);
    RemoveFromIs(Joined(ps, lead), key);
    if ps != [] {
      var rest := ps[1..];
      TextStarts(rest);
      LeadingText(rest);
      if ps[0].key != key {
        TextHead(ps, Without(rest, key), lead);
        LeadingText(Without(rest, key));
        RemovedFromJoined(rest, true, key);
      }
    }
  }

  lemma LeadingText(ps: seq<Pair>)
    ensures Joined(ps, true) == Text(ps)
  {
  }

  /** The pairs after the first may change without touching it. */
  lemma TextHead(ps: seq<Pair>, other: seq<Pair>, lead: bool)
    requires ps != []
    ensures var s, rest := Joined(ps, lead), Text(ps[1..]);
            && |rest| <= |s|
            && s[..|s| - |rest|] + Text(other) == Joined([ps[0]] + other, lead)
            && (rest == [] ==> s[..|s| - |rest|] == s)
  {
    hide Text, Coded;
    var rest := Text(ps[1..]);
    var head := Coded(ps[0].key, ps[0].value);
    assert ([ps[0]] + other)[1..] == other;
    TextIs(ps);
    TextIs([ps[0]] + other);
    CodedStarts(ps[0].key, ps[0].value);
    if lead {
      assert (head + rest)[..|head|] == head;
    } else {
      assert (head + rest)[1..][..|head| - 1] == head[1..];
      assert (head + Text(other))[1..] == head[1..] + Text(other);
    }
  }

  lemma TextIs(ps: seq<Pair>)
    requires ps != []
    ensures Text(ps) == Coded(ps[0].key, ps[0].value) + Text(ps[1..])
  {
  }

  lemma CodedStarts(key: seq<Byte>, value: seq<Byte>)
    ensures Coded(key, value) != []
  {
  }

  // ---------- Setting a value ----------

  /** Backslashes and quotes are refused, and so are 64 characters or more. */
  predicate Refused(part: seq<Byte>) {
    |part| >= 64 || exists i :: 0 <= i < |part| && (part[i] == 92 || part[i] == 34)
  }

  /**
   * What setting a value does to the list: an empty value removes the key, what does not fit is refused, and
   * control characters are left out.
   */
  function Updated(ps: seq<Pair>, key: seq<Byte>, value: seq<Byte>, max: nat): seq<Pair> {
    var rest := Without(ps, key);
    if Refused(key) || Refused(value) then ps
    else if value == [] then rest
    else if |Text(rest)| + |Coded(key, value)| + 1 > max then ps
    else rest + [Pair(Printable(key), Printable(value))]
  }

  ghost predicate WellFormed(ps: seq<Pair>, max: nat) {
    Plain(ps) && Distinct(ps) && NoEmpty(ps) && |Text(ps)| < max
  }

  lemma {:induction false} TextOfSum(a: seq<Pair>, b: seq<Pair>)
    ensures Text(a + b) == Text(a) + Text(b)
  {
    if a == [] {
      assert a + b == b;
    } else {
      assert (a + b)[1..] == a[1..] + b;
      TextOfSum(a[1..], b);
    }
  }

  lemma {:induction false} TextWithout(ps: seq<Pair>, key: seq<Byte>)
    ensures match Find(ps, key)
            case None => Without(ps, key) == ps
            case Some(v) => |Text(ps)| == |Text(Without(ps, key))| + 2 + |key| + |v|
  {
    if ps != [] {
      var rest := ps[1..];
      TextWithout(rest, key);
      if ps[0].key != key {
        assert ([ps[0]] + Without(rest, key))[1..] == Without(rest, key);
        assert [ps[0]] + rest == ps;
      }
    }
  }

  lemma {:induction false} PairsAreShort(ps: seq<Pair>)
    ensures forall p :: p in ps ==> |p.key| + |p.value| + 2 <= |Text(ps)|
  {
    if ps != [] {
      PairsAreShort(ps[1..]);
    }
  }

  lemma {:induction false} FindWithout(ps: seq<Pair>, key: seq<Byte>, other: seq<Byte>)
    requires Distinct(ps)
    ensures Find(Without(ps, key), other) == if other == key then None else Find(ps, other)
  {
    if ps != [] {
      var rest := ps[1..];
      FindWithout(rest, key, other);
      if ps[0].key == key {
        NotFound(rest, key);
      } else {
        assert ([ps[0]] + Without(rest, key))[1..] == Without(rest, key);
      }
    }
  }

  lemma {:induction false} NotFound(ps: seq<Pair>, key: seq<Byte>)
    requires forall i :: 0 <= i < |ps| ==> ps[i].key != key
    ensures Find(ps, key) == None
  {
    if ps != [] {
      NotFound(ps[1..], key);
    }
  }

  lemma {:induction false} FindInSum(a: seq<Pair>, p: Pair, key: seq<Byte>)
    ensures Find(a + [p], key)
            == if Find(a, key).Some? then Find(a, key) else if p.key == key then Some(p.value) else None
  {
    if a == [] {
      assert a + [p] == [p];
    } else {
      assert (a + [p])[1..] == a[1..] + [p];
      FindInSum(a[1..], p, key);
    }
  }

  lemma {:induction false} WithoutKeeps(ps: seq<Pair>, key: seq<Byte>)
    ensures forall p :: p in Without(ps, key) ==> p in ps
    ensures Distinct(ps) ==> Distinct(Without(ps, key)) && forall p :: p in Without(ps, key) ==> p.key != key
  {
    if ps != [] {
      var rest := ps[1..];
      WithoutKeeps(rest, key);
      if Distinct(ps) {
        assert Distinct(rest);
        forall p | p in rest
          ensures p.key != ps[0].key
        {
          var i :| 0 <= i < |rest| && rest[i] == p;
          assert ps[i + 1] == p;
        }
        if ps[0].key != key {
          DistinctMore(ps[0], Without(rest, key));
        }
      }
    }
  }

  lemma DistinctMore(p: Pair, ps: seq<Pair>)
    requires Distinct(ps) && forall q :: q in ps ==> q.key != p.key
    ensures Distinct([p] + ps) && Distinct(ps + [p])
  {
  }

  lemma {:induction false} AllPrintable(s: seq<Byte>)
    requires forall c :: c in s ==> c > 13
    ensures Printable(s) == s
  {
    if s != [] {
      var front := s[..|s| - 1];
      forall c | c in front
        ensures c > 13
      {
        assert c in s;
      }
      assert s[|s| - 1] in s;
      AllPrintable(front);
    }
  }

  lemma {:induction false} PrintableSum(a: seq<Byte>, b: seq<Byte>)
    ensures Printable(a + b) == Printable(a) + Printable(b)
    decreases |b|
  {
    if b == [] {
      assert a + b == a;
    } else {
      assert (a + b)[..|a + b| - 1] == a + b[..|b| - 1];
      PrintableSum(a, b[..|b| - 1]);
    }
  }

  /** Only the characters of the key and of the value can be left out. */
  lemma CodedPrintable(key: seq<Byte>, value: seq<Byte>)
    ensures Printable(Coded(key, value)) == Coded(Printable(key), Printable(value))
  {
    hide Printable;
    AllPrintable([SLASH]);
    PrintableSum([SLASH], key);
    PrintableSum([SLASH] + key, [SLASH]);
    PrintableSum([SLASH] + key + [SLASH], value);
  }

  lemma LegalUnlessRefused(key: seq<Byte>, value: seq<Byte>)
    ensures Legal(key, value) <==> !Refused(key) && !Refused(value)
  {
    assert forall s: seq<Byte>, c :: c in s <==> exists i :: 0 <= i < |s| && s[i] == c;
  }

  // ---------- Main results ----------

  /**
   * On a well-formed string, setting a value is exactly the update of the list, whatever the key and the value
   * are; without control characters the list stays well formed, and in any case within the size.
   */
  lemma SetRefinesList(ps: seq<Pair>, key: seq<Byte>, value: seq<Byte>, max: nat)
    requires WellFormed(ps, max) && max <= SCRATCH
    ensures var qs := Updated(ps, key, value, max);
            && SetIn(Text(ps), key, value, max) == Text(qs)
            && Plain(qs) && |Text(qs)| < max
            && (Clean(key) && Clean(value) ==> WellFormed(qs, max))
  {
    hide Text, ValueOf, RemoveFrom, Printable, Find, Without, Refused;
    LegalUnlessRefused(key, value);
    if Legal(key, value) {
      var s, rest := Text(ps), Without(ps, key);
      assert Joined(ps, true) == s && Joined(rest, true) == Text(rest);
      PairsAreShort(ps);
      ValueOfJoined(ps, true, key, SCRATCH);
      RemovedFromJoined(ps, true, key);
      TextWithout(ps, key);
      FoundIsThere(ps, key);
      CodedPrintable(key, value);
      TextOfSum(rest, [Pair(Printable(key), Printable(value))]);
      TextOfOne(Printable(key), Printable(value));
      WithoutKeeps(ps, key);
      if Clean(key) && Clean(value) {
        AllPrintable(key);
        AllPrintable(value);
        if value != [] {
          DistinctMore(Pair(key, value), rest);
        }
      }
    }
  }

  /** No character is left out. */
  ghost predicate Clean(part: seq<Byte>) {
    forall c :: c in part ==> c > 13
  }

  lemma TextOfOne(key: seq<Byte>, value: seq<Byte>)
    ensures Text([Pair(key, value)]) == Coded(key, value)
  {
  }

  lemma {:induction false} FoundIsThere(ps: seq<Pair>, key: seq<Byte>)
    ensures Find(ps, key).Some? ==> Pair(key, Find(ps, key).value) in ps
  {
    if ps != [] {
      FoundIsThere(ps[1..], key);
    }
  }

  /** The list as a map: the value that was set is found, other keys keep theirs, and a refused one changes nothing. */
  lemma UpdatedIsMapUpdate(ps: seq<Pair>, key: seq<Byte>, value: seq<Byte>, max: nat, other: seq<Byte>)
    requires Distinct(ps)
    ensures var qs := Updated(ps, key, value, max);
            qs == ps
            || Find(qs, other) == if other != key && Find(ps, other).Some? then Find(ps, other)
                                  else if value != [] && other == Printable(key) then Some(Printable(value))
                                  else None
  {
    FindWithout(ps, key, other);
    FindInSum(Without(ps, key), Pair(Printable(key), Printable(value)), other);
  }

  /**
   * Lookup after set, on the strings themselves. The string is untouched when the key or the value is refused or
   * the new string would not fit; otherwise a lookup gives the new value for the key and the old ones for others.
   */
  lemma LookupAfterSet(ps: seq<Pair>, key: seq<Byte>, value: seq<Byte>, max: nat, other: seq<Byte>)
    requires WellFormed(ps, max) && max <= SCRATCH
    ensures var s := Text(ps);
            var r := SetIn(s, key, value, max);
            && |r| < max
            && if 92 in key + value || 34 in key + value || |key| >= 64 || |value| >= 64
                  || (value != [] && |s| - |RoomOf(ps, key)| + |Coded(key, value)| + 1 > max) then r == s
               else if Clean(key) && Clean(value) then
                 ValueOf(r, other, SCRATCH) == if other == key then value else ValueOf(s, other, SCRATCH)
               else
                 ValueOf(r, other, SCRATCH)
                 == if other != key && ValueOf(s, other, SCRATCH) != [] then ValueOf(s, other, SCRATCH)
                    else if other == Printable(key) then Printable(value) else []
  {
    hide Text, ValueOf, SetIn, Find, Without, Updated, Printable;
    var qs := Updated(ps, key, value, max);
    SetRefinesList(ps, key, value, max);
    TextWithout(ps, key);
    UpdatedIs(ps, key, value, max);
    RefusedHasOne(key);
    RefusedHasOne(value);
    FindWithout(ps, key, other);
    FindInSum(Without(ps, key), Pair(Printable(key), Printable(value)), other);
    FoundIsThere(ps, other);
    PairsAreShort(ps);
    PairsAreShort(qs);
    assert Joined(ps, true) == Text(ps) && Joined(qs, true) == Text(qs);
    ValueOfJoined(ps, true, other, SCRATCH);
    ValueOfJoined(qs, true, other, SCRATCH);
    if Clean(key) && Clean(value) {
      AllPrintable(key);
      AllPrintable(value);
    }
    if value == [] {
      AllPrintable(value);
    }
  }

  lemma RefusedHasOne(part: seq<Byte>)
    ensures Refused(part) <==> 92 in part || 34 in part || |part| >= 64
  {
    if 92 in part {
      var i :| 0 <= i < |part| && part[i] == 92;
    }
    if 34 in part {
      var i :| 0 <= i < |part| && part[i] == 34;
    }
  }

  lemma UpdatedIs(ps: seq<Pair>, key: seq<Byte>, value: seq<Byte>, max: nat)
    ensures Updated(ps, key, value, max)
            == var rest := Without(ps, key);
               if Refused(key) || Refused(value) then ps
               else if value == [] then rest
               else if |Text(rest)| + |Coded(key, value)| + 1 > max then ps
               else rest + [Pair(Printable(key), Printable(value))]
  {
  }

  /** The characters that the pair of a key takes. */
  function RoomOf(ps: seq<Pair>, key: seq<Byte>): seq<Byte> {
    match Find(ps, key)
    case None => []
    case Some(v) => Coded(key, v)
  }

  /**
   * When a set that is refused has removed the old value all the same: exactly when the old value is empty and
   * the new one does not fit, or when the key comes first without its backslash and there is no room for one.
   */
  ghost predicate Lost(ps: seq<Pair>, lead: bool, key: seq<Byte>, value: seq<Byte>, max: nat) {
    match Find(ps, key)
    case None => false
    case Some(v) =>
      var size := |Joined(ps, lead)| - |v| + |value| + 1;
      var first := !lead && ps != [] && ps[0].key == key;
      if v == [] then size + (if first then 1 else 0) > max else first && size == max
  }

  lemma RefusedSetLosesKey(ps: seq<Pair>, lead: bool, key: seq<Byte>, value: seq<Byte>, max: nat)
    requires Plain(ps) && (!lead && ps != [] ==> ps[0].key != [])
    requires |Joined(ps, lead)| < max <= SCRATCH && |Text(ps)| < SCRATCH && Legal(key, value) && value != []
    requires Clean(key) && Clean(value)
    ensures var s := Joined(ps, lead);
            var r := SetIn(s, key, value, max);
            r != s && r == RemoveFrom(s, key) <==> Lost(ps, lead, key, value, max)
  {
    hide Text, ValueOf, RemoveFrom, Printable;
    var s, rest := Joined(ps, lead), Without(ps, key);
    PairsAreShort(ps);
    ValueOfJoined(ps, lead, key, SCRATCH);
    RemovedFromJoined(ps, lead, key);
    TextWithout(ps, key);
    AllPrintable(Coded(key, value));
    TextStarts(ps);
    TextStarts(rest);
    if v :| Find(ps, key) == Some(v) {
      var first := !lead && ps[0].key == key;
      assert |s| - |RemoveFrom(s, key)| == |key| + |v| + if first then 1 else 2;
    } else {
      assert RemoveFrom(s, key) == s;
    }
  }

  /** A full buffer holds a key without a value: refusing the new value removes the key. */
  lemma RefusedSetExample()
    ensures SetIn([SLASH, 97, SLASH], [97], [98], 4) == []
  {
    var ps := [Pair([97], [])];
    assert ps[1..] == [] && Text(ps) == [SLASH, 97, SLASH];
    RefusedSetLosesKey(ps, true, [97], [98], 4);
    RemovedFromJoined(ps, true, [97]);
  }

  // ---------- The implementation ----------

  class InfoBuffer {
    const data: array<Byte>
    ghost var text: seq<Byte>

    /** The characters before the terminator are `text`. */
    ghost predicate Valid()
      reads this, data
    {
      Holds(data[..], text)
    }

    constructor (size: nat)
      requires size > 0
      ensures Valid() && text == [] && fresh(data) && data.Length == size
    {
      data := new Byte[size](_ => 0);
      text := [];
    }

    /** The character at `i`, which is zero at the end only. */
    function At(i: nat): (c: Byte)
      requires Valid() && i <= |text|
      reads this, data
      ensures c == if i < |text| then text[i] else 0
      ensures c == 0 <==> i == |text|
    {
      assert data[i] == data[..][i];
      assert i < |text| ==> text[i] == data[..|text|][i] && text[i] in text;
      data[i]
    }

    /** The characters from `i` up to a backslash or the end. */
    method ReadPart(i: nat) returns (part: seq<Byte>)
      requires Valid() && i <= |text|
      ensures part == Part(text[i..]) && i + |part| <= |text|
    {
      hide Part, Holds;
      part := [];
      ghost var whole := Part(text[i..]);
      var j := i;
      assert part + whole == whole;
      PartAt(text, j);
      while At(j) != SLASH && At(j) != 0
        invariant i <= j <= |text| && j == i + |part| && part + Part(text[j..]) == whole
        invariant j == |text| || text[j] == SLASH ==> Part(text[j..]) == []
        decreases |text| - j
      {
        PartAt(text, j);
        Regroup(part, text[j], Part(text[j + 1..]));
        part := part + [At(j)];
        j := j + 1;
        PartAt(text, j);
      }
      assert part + [] == part;
    }

    /** Info_ValueForKey. */
    method ValueForKey(key: seq<Byte>, size: nat) returns (value: seq<Byte>)
      requires Valid()
      ensures value == ValueOf(text, key, size)
    {
      hide ValueOf, Entry, Part, Holds, At;
      var i := 0;
      assert text[0..] == text;
      while true
        invariant 0 <= i <= |text| && ValueOf(text[i..], key, size) == ValueOf(text, key, size)
        decreases |text| - i
      {
        ValueOfAt(text[i..], key, size);
        var k := if At(i) == SLASH then i + 1 else i;
        EntryAt(text, i, k);
        var pkey := ReadPart(k);
        if At(k + |pkey|) == 0 || |pkey| + 2 >= SCRATCH {
          return [];
        }
        var v := ReadPart(k + |pkey| + 1);
        if v != [] && |v| + 2 >= size {
          return [];
        }
        if key == pkey {
          return v;
        }
        i := k + |pkey| + 1 + |v|;
        if At(i) == 0 {
          return [];
        }
      }
    }

    method Length() returns (n: nat)
      requires Valid()
      ensures n == |text|
    {
      hide Holds, At;
      n := 0;
      while At(n) != 0
        invariant n <= |text|
        decreases |text| - n
      {
        n := n + 1;
      }
    }

    /** strcpy within the string: what stands at `from` moves down to `start`. */
    method MoveDown(start: nat, from: nat)
      requires Valid() && start <= from <= |text|
      modifies this`text, data
      ensures Valid() && text == old(text)[..start] + old(text)[from..]
    {
      hide Holds;
      ghost var t, was := text, data[..];
      ghost var goal := t[..start] + t[from..];
      var i := 0;
      StartMove(was, t, start, from);
      while data[from + i] != 0
        invariant from + i <= |t| < |was| == data.Length && text == t
        invariant data[..start + i] == goal[..start + i] && data[from + i..] == was[from + i..]
        decreases |t| - i
      {
        NotAtEnd(was, t, from + i, data[..]);
        assert goal[start + i] == t[from + i] && data[..][from + i] == data[from + i];
        ghost var front := data[..start + i];
        data[start + i] := data[from + i];
        assert data[..start + i + 1] == front + [goal[start + i]];
        i := i + 1;
      }
      AtEnd(was, t, from + i, data[..]);
      data[start + i] := 0;
      text := goal;
      EndMove(data[..], was, t, start, from);
    }

    /** Info_RemoveKey. */
    method RemoveKey(key: seq<Byte>)
      requires Valid()
      modifies this`text, data
      ensures Valid() && text == Removed(old(text), key)
    {
      hide RemoveFrom, Entry, Part, Holds, At, Skipped;
      if SLASH in key {
        return;
      }
      var i := 0;
      ghost var t := text;
      NothingSkipped(t, key);
      while true
        invariant Valid() && text == t && 0 <= i <= |t| && Skipped(t, i, key)
        decreases |t| - i
      {
        var start := i;
        var k := if At(i) == SLASH then i + 1 else i;
        RemoveStep(t, i, k, key);
        var pkey := ReadPart(k);
        if At(k + |pkey|) == 0 {
          return;
        }
        var v := ReadPart(k + |pkey| + 1);
        i := k + |pkey| + 1 + |v|;
        if key == pkey {
          MoveDown(start, i);
          return;
        }
        if At(i) == 0 {
          return;
        }
      }
    }

    /** Info_SetValueForStarKey with a buffer of `max` characters. */
    method SetValueForStarKey(key: seq<Byte>, value: seq<Byte>, max: nat)
      requires Valid() && |text| < max <= data.Length
      modifies this`text, data
      ensures Valid() && text == SetIn(old(text), key, value, max) && |text| < max
    {
      hide Removed, ValueOf, Holds, Printable, At;
      if !Legal(key, value) {
        return;
      }
      var v := ValueForKey(key, SCRATCH);
      var n := Length();
      if v != [] && |value| - |v| + n + 1 > max {
        return;
      }
      RemoveKey(key);
      if value == [] {
        return;
      }
      var newv := [SLASH] + key + [SLASH] + value;
      n := Length();
      if |newv| + n + 1 > max {
        return;
      }
      Append(n, newv);
    }

    /** Copies the characters above code 13 to the end of the string. */
    method Append(n: nat, newv: seq<Byte>)
      requires Valid() && n == |text| && n + |newv| < data.Length
      modifies this`text, data
      ensures Valid() && text == old(text) + Printable(newv)
    {
      hide Printable;
      ghost var t := text;
      var s := n;
      assert Printable(newv[..0]) == [] by { PrintableMore(newv, 0); }
      for i := 0 to |newv|
        invariant n <= s <= n + i && data[..s] == t + Printable(newv[..i])
        invariant 0 !in t
      {
        PrintableMore(newv, i);
        ghost var before := data[..s];
        var c := newv[i];
        if c > 13 {
          data[s] := c;
          s := s + 1;
          assert data[..s] == before + [c];
        }
      }
      data[s] := 0;
      assert newv[..|newv|] == newv;
      text := t + Printable(newv);
    }
  }

  lemma PrintableMore(s: seq<Byte>, i: nat)
    requires i <= |s|
    ensures Printable(s[..0]) == []
    ensures i < |s| ==> Printable(s[..i + 1]) == Printable(s[..i]) + if s[i] > 13 then [s[i]] else []
  {
    if i < |s| {
      assert s[..i + 1][..i] == s[..i];
    }
  }

  lemma PartAt(text: seq<Byte>, j: nat)
    requires j <= |text|
    ensures j < |text| && text[j] != SLASH ==> Part(text[j..]) == [text[j]] + Part(text[j + 1..])
    ensures j == |text| || text[j] == SLASH ==> Part(text[j..]) == []
  {
    if j < |text| {
      assert text[j..][1..] == text[j + 1..];
    }
  }

  lemma Regroup(a: seq<Byte>, b: Byte, c: seq<Byte>)
    ensures a + ([b] + c) == a + [b] + c
  {
  }

  lemma StartMove(data: seq<Byte>, t: seq<Byte>, start: nat, from: nat)
    requires Holds(data, t) && start <= from <= |t|
    ensures |t| < |data| && data[..start] == (t[..start] + t[from..])[..start]
  {
    assert data[..start] == data[..|t|][..start];
  }

  lemma EndMove(data: seq<Byte>, was: seq<Byte>, t: seq<Byte>, start: nat, from: nat)
    requires Holds(was, t) && start <= from <= |t| < |data|
    requires var goal := t[..start] + t[from..]; data[..|goal|] == goal && data[|goal|] == 0
    ensures Holds(data, t[..start] + t[from..])
  {
  }

  lemma NotAtEnd(data: seq<Byte>, text: seq<Byte>, i: nat, now: seq<Byte>)
    requires Holds(data, text) && i <= |text| && |now| == |data| && now[i..] == data[i..] && now[i] != 0
    ensures i < |text| && now[i] == text[i]
  {
    assert now[i] == now[i..][0] == data[i..][0] == data[i];
    assert i < |text| ==> data[i] == data[..|text|][i];
  }

  lemma AtEnd(data: seq<Byte>, text: seq<Byte>, i: nat, now: seq<Byte>)
    requires Holds(data, text) && i <= |text| && |now| == |data| && now[i..] == data[i..] && now[i] == 0
    ensures i == |text|
  {
    assert now[i] == now[i..][0] == data[i..][0] == data[i];
    HoldsAt(data, text, i);
  }

  lemma HoldsAt(data: seq<Byte>, text: seq<Byte>, i: nat)
    requires Holds(data, text)
    ensures i < |text| ==> data[i] == text[i] && text[i] != 0
  {
    if i < |text| {
      assert data[i] == data[..|text|][i] && text[i] in text;
    }
  }

  /** The entries before `i` stay. */
  ghost predicate Skipped(t: seq<Byte>, i: nat, key: seq<Byte>)
    requires i <= |t|
  {
    t[..i] + RemoveFrom(t[i..], key) == RemoveFrom(t, key)
  }

  lemma NothingSkipped(t: seq<Byte>, key: seq<Byte>)
    ensures Skipped(t, 0, key)
  {
    assert t[0..] == t && t[..0] + RemoveFrom(t, key) == RemoveFrom(t, key);
  }

  lemma RemoveFromAt(t: seq<Byte>, i: nat, key: seq<Byte>)
    requires i <= |t| && Skipped(t, i, key)
    ensures var e := Entry(t[i..]);
            if e.None? then RemoveFrom(t, key) == t
            else
              var n := |t| - |e.value.1|;
              if e.value.0.key == key then RemoveFrom(t, key) == t[..i] + t[n..]
              else if e.value.1 == [] then RemoveFrom(t, key) == t
              else Skipped(t, n, key)
  {
    hide RemoveFrom, Entry;
    var s := t[i..];
    RemoveFromIs(s, key);
    assert t[..i] + s == t;
    var e := Entry(s);
    if e.Some? {
      var n := |t| - |e.value.1|;
      Slices(t, i, n, RemoveFrom(t[n..], key));
    }
  }

  /** One entry of Info_RemoveKey, from `i`, with its key at `k`. */
  lemma RemoveStep(t: seq<Byte>, i: nat, k: nat, key: seq<Byte>)
    requires i <= k <= |t| && k == (if i < |t| && t[i] == SLASH then i + 1 else i) && Skipped(t, i, key)
    ensures var j := k + |Part(t[k..])|;
            && j <= |t|
            && if j == |t| then RemoveFrom(t, key) == t
               else
                 var n := j + 1 + |Part(t[j + 1..])|;
                 && n <= |t|
                 && if key == Part(t[k..]) then RemoveFrom(t, key) == t[..i] + t[n..]
                    else if n == |t| then RemoveFrom(t, key) == t
                    else Skipped(t, n, key)
  {
    hide Part, Entry, RemoveFrom, Skipped;
    EntryAt(t, i, k);
    RemoveFromAt(t, i, key);
  }

  lemma RemoveFromIs(s: seq<Byte>, key: seq<Byte>)
    ensures var e := Entry(s);
            RemoveFrom(s, key)
            == if e.None? then s
               else if e.value.0.key == key then e.value.1
               else if e.value.1 == [] then s
               else s[..|s| - |e.value.1|] + RemoveFrom(e.value.1, key)
  {
    hide Entry;
  }

  lemma Slices(t: seq<Byte>, i: nat, n: nat, more: seq<Byte>)
    requires i <= n <= |t|
    ensures t[i..][n - i..] == t[n..]
    ensures t[..i] + (t[i..][..n - i] + more) == t[..n] + more
  {
    assert t[..i] + t[i..][..n - i] == t[..n];
  }

  ghost predicate Holds(data: seq<Byte>, text: seq<Byte>) {
    |text| < |data| && data[..|text|] == text && data[|text|] == 0 && 0 !in text
  }

  lemma ValueOfAt(s: seq<Byte>, key: seq<Byte>, size: nat)
    ensures var e := Entry(s);
            ValueOf(s, key, size)
            == if e.None? then []
               else if |e.value.0.key| + 2 >= SCRATCH || (e.value.0.value != [] && |e.value.0.value| + 2 >= size)
              then []
               else if e.value.0.key == key then e.value.0.value
               else if e.value.1 == [] then []
               else ValueOf(e.value.1, key, size)
  {
    hide Entry;
  }

  /** The entry at `i` of a string, when its key starts at `k`. */
  lemma EntryAt(text: seq<Byte>, i: nat, k: nat)
    requires i <= k <= |text| && k == if i < |text| && text[i] == SLASH then i + 1 else i
    ensures var key := Part(text[k..]);
            && k + |key| <= |text|
            && if k + |key| == |text| then Entry(text[i..]) == None
               else
                 var v := Part(text[k + |key| + 1..]);
                 && text[k + |key|] == SLASH && k + |key| + 1 + |v| <= |text|
                 && Entry(text[i..]) == Some((Pair(key, v), text[k + |key| + 1 + |v|..]))
  {
    hide Part, Entry;
    var s, t := text[i..], text[k..];
    var key := Part(t);
    assert (if s != [] && s[0] == SLASH then s[1..] else s) == t;
    EntryIs(s, t);
    PartEnds(t);
    if k + |key| < |text| {
      var u := text[k + |key| + 1..];
      Suffix(text, k, |key| + 1);
      Suffix(text, k + |key| + 1, |Part(u)|);
      assert text[k + |key|] == t[|key|];
    }
  }

  lemma Suffix(text: seq<Byte>, i: nat, n: nat)
    requires i + n <= |text|
    ensures text[i..][n..] == text[i + n..]
  {
  }

  lemma EntryIs(s: seq<Byte>, t: seq<Byte>)
    requires t == if s != [] && s[0] == SLASH then s[1..] else s
    ensures var key := Part(t);
            Entry(s) == if |key| == |t| then None
                        else
                          var u := t[|key| + 1..];
                          Some((Pair(key, Part(u)), u[|Part(u)|..]))
  {
    hide Part;
  }
}
