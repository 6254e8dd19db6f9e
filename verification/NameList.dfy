/**
 * Paged name lists (fteqtv/qw.c, fteqtv/parse.c, fteqtv/msg.c): SendList pages the names of sounds or
 * models through small messages, each page overlapping the one before by a name, and ParseList
 * rebuilds the list from the pages.
 */
module NameList {
  import opened Msg

  const MAX_LIST: nat := 256
  /** A page is cut after the name that takes it beyond this size. */
  const PAGE: nat := 768

  type Names = seq<seq<Byte>>

  ghost predicate ValidNames(list: Names) {
    |list| == MAX_LIST && forall i :: 0 <= i < MAX_LIST ==> NoNul(list[i]) && |list[i]| < MAX_QPATH
  }

  // ---------- Sending ----------

  /** The names from `i` on, with `used` bytes already in the message, and the value SendList returns. */
  function NamesFrom(list: Names, i: nat, used: nat): (r: (seq<Byte>, int))
    requires |list| == MAX_LIST
    decreases MAX_LIST - i
  {
    if i >= MAX_LIST then ([0, i % 0x100], i)
    else
      var name := list[i] + [0];
      if list[i] == [] then (name + [0], -1)
      else if used + |name| > PAGE then (name + [0, (i - 1) % 0x100], i - 1)
      else
        var (bytes, next) := NamesFrom(list, i + 1, used + |name|);
        (name + bytes, next)
  }

  /** SendList: the bytes after the command byte, for a message that holds `used` bytes before it. */
  function ListPage(list: Names, first: nat, used: nat): (seq<Byte>, int)
    requires |list| == MAX_LIST
  {
    var (bytes, next) := NamesFrom(list, first + 1, used + 1);
    ([first % 0x100] + bytes, next)
  }

  // ---------- Parsing ----------

  /** ReadString into a field of MAX_QPATH characters. */
  function ReadName(s: seq<Byte>): (r: (seq<Byte>, seq<Byte>))
    ensures |r.1| <= |s| && (s != [] ==> |r.1| < |s|)
  {
    BoundedString(s, MAX_QPATH)
  }

  function ParseNames(list: Names, i: nat, s: seq<Byte>): (r: (Names, seq<Byte>))
    requires |list| == MAX_LIST
    ensures |r.0| == MAX_LIST
    decreases MAX_LIST - i
  {
    if i >= MAX_LIST then (list, s)
    else
      var (name, rest) := ReadName(s);
      if name == [] then (list[i := name], rest) else ParseNames(list[i := name], i + 1, rest)
  }

  /** ParseList: the updated list, the index the page ends with, and what follows the page. */
  function ParsePage(list: Names, s: seq<Byte>): (r: (Names, Byte, seq<Byte>))
    requires |list| == MAX_LIST
    ensures |r.0| == MAX_LIST
  {
    var (updated, rest) := ParseNames(list, First(s) + 1, Rest(s));
    (updated, First(rest), Rest(rest))
  }

  // ---------- One page ----------

  lemma NameRoundTrip(name: seq<Byte>, rest: seq<Byte>)
    requires NoNul(name) && |name| < MAX_QPATH
    ensures ReadName(name + [0] + rest) == (name, rest)
  {
    FieldReadBack(name, rest, MAX_QPATH);
  }

  /** Up to which index a page sends the names; the name there is empty or the page was cut after it. */
  function LastSent(list: Names, i: nat, used: nat): (k: nat)
    requires |list| == MAX_LIST && i < MAX_LIST
    ensures i <= k < MAX_LIST
    decreases MAX_LIST - i
  {
    if list[i] == [] || used + |list[i]| + 1 > PAGE || i + 1 == MAX_LIST then i
    else LastSent(list, i + 1, used + |list[i]| + 1)
  }

  /** `got` agrees with `list` on the names from `i` to `k` and with `was` outside that range and its end. */
  ghost predicate Copied(was: Names, got: Names, list: Names, i: nat, k: nat)
    requires |was| == |got| == |list| == MAX_LIST
  {
    && (forall j :: i <= j <= k && j < MAX_LIST ==> got[j] == list[j])
    && (forall j :: 0 <= j < MAX_LIST && (j < i || k + 1 < j) ==> got[j] == was[j])
    && (k + 1 < MAX_LIST ==> got[k + 1] == was[k + 1] || (got[k + 1] == [] && list[k] != []))
  }

  lemma CopiedMore(was: Names, got: Names, list: Names, i: nat, k: nat)
    requires |was| == |got| == |list| == MAX_LIST && i < k < MAX_LIST
    requires Copied(was[i := list[i]], got, list, i + 1, k)
    ensures Copied(was, got, list, i, k)
  {
  }

  /** What the parser makes of the names of a page that is not the last one before index 256. */
  lemma {:induction false} NamesRoundTrip(list: Names, i: nat, used: nat, was: Names, rest: seq<Byte>)
    requires ValidNames(list) && |was| == MAX_LIST && 0 < i < MAX_LIST
    requires exists e :: i <= e < MAX_LIST && list[e] == []
    ensures var (bytes, next) := NamesFrom(list, i, used);
            var k := LastSent(list, i, used);
            var (got, tail) := ParseNames(was, i, bytes + rest);
            && Copied(was, got, list, i, k)
            && (if list[k] == [] then next == -1 && tail == [0] + rest
                else next == k - 1 && tail == [k - 1] + rest)
            && (forall j :: i <= j < k ==> list[j] != [])
    decreases MAX_LIST - i
  {
    hide ReadName;
    var (bytes, next) := NamesFrom(list, i, used);
    var name := list[i] + [0];
    if list[i] == [] {
      assert bytes + rest == list[i] + [0] + ([0] + rest);
      NameRoundTrip(list[i], [0] + rest);
    } else if used + |name| > PAGE {
      var end := [0, (i - 1) % 0x100] + rest;
      assert bytes + rest == list[i] + [0] + end;
      NameRoundTrip(list[i], end);
      assert i + 1 < MAX_LIST;
      assert end == [] + [0] + ([i - 1] + rest);
      NameRoundTrip([], [i - 1] + rest);
    } else {
      var (more, n) := NamesFrom(list, i + 1, used + |name|);
      assert bytes + rest == list[i] + [0] + (more + rest);
      NameRoundTrip(list[i], more + rest);
      ghost var was2 := was[i := list[i]];
      NamesRoundTrip(list, i + 1, used + |name|, was2, rest);
      var k := LastSent(list, i + 1, used + |name|);
      var got := ParseNames(was2, i + 1, more + rest).0;
      CopiedMore(was, got, list, i, k);
    }
  }

  // ---------- The paging loop ----------

  /** The first empty name after index 0, where the list ends. */
  ghost predicate EndsAt(list: Names, n: nat)
    requires |list| == MAX_LIST
  {
    0 < n < MAX_LIST && list[n] == [] && forall j :: 0 < j < n ==> list[j] != []
  }

  /** The receiver's list when the sender's cursor is at `first`: the names up to there have arrived. */
  ghost predicate Partial(got: Names, was: Names, list: Names, first: nat, n: nat)
    requires |got| == |was| == |list| == MAX_LIST
  {
    && (forall j :: 0 < j <= first && j <= n && j < MAX_LIST ==> got[j] == list[j])
    && got[0] == was[0] && forall j :: n < j < MAX_LIST ==> got[j] == was[j]
  }

  /**
   * One turn of the paging loop: the cursor makes strict progress and stays before the end of the list,
   * or the list is finished; the receiver has everything that was sent.
   */
  lemma PageRoundTrip(list: Names, first: nat, n: nat, got: Names, was: Names, rest: seq<Byte>)
    requires ValidNames(list) && |got| == |was| == MAX_LIST
    requires EndsAt(list, n) && first < n && Partial(got, was, list, first, n)
    ensures var (bytes, next) := ListPage(list, first, 1);
            var (g, end, tail) := ParsePage(got, bytes + rest);
            && tail == rest
            && (if next == -1 then end == 0 && Partial(g, was, list, n, n)
                else first < next < n && end as int == next && Partial(g, was, list, next, n))
  {
    hide ReadName, NamesFrom, ParseNames, LastSent, Partial, Copied, ListPage, ParsePage;
    var (names, next) := NamesFrom(list, first + 1, 2);
    PageUnfolds(list, first, got, rest);
    NamesRoundTrip(list, first + 1, 2, got, rest);
    var k := LastSent(list, first + 1, 2);
    FirstNameFits(list, first + 1, 2);
    assert k <= n;
    var g := ParseNames(got, first + 1, names + rest).0;
    CopiedIsPartial(got, g, was, list, first, k, n);
  }

  lemma PageUnfolds(list: Names, first: nat, got: Names, rest: seq<Byte>)
    requires |list| == |got| == MAX_LIST && first < MAX_LIST
    ensures var (names, next) := NamesFrom(list, first + 1, 2);
            var (bytes, r) := ListPage(list, first, 1);
            var (g, tail) := ParseNames(got, first + 1, names + rest);
            r == next && ParsePage(got, bytes + rest) == (g, First(tail), Rest(tail))
  {
    hide NamesFrom, ParseNames;
    var s := ListPage(list, first, 1).0 + rest;
    assert First(s) == first && Rest(s) == NamesFrom(list, first + 1, 2).0 + rest;
  }

  lemma CopiedIsPartial(got: Names, g: Names, was: Names, list: Names, first: nat, k: nat, n: nat)
    requires |got| == |g| == |was| == |list| == MAX_LIST
    requires first < k <= n && EndsAt(list, n) && Partial(got, was, list, first, n)
    requires Copied(got, g, list, first + 1, k)
    ensures Partial(g, was, list, if list[k] == [] then n else k - 1, n)
  {
  }

  /** A page always holds two names unless the first is the end of the list. */
  lemma FirstNameFits(list: Names, i: nat, used: nat)
    requires ValidNames(list) && i < MAX_LIST && used <= 2
    ensures list[i] != [] && i + 1 < MAX_LIST ==> LastSent(list, i, used) > i
  {
  }

  /** The loop of Net_SendConnectionMVD from cursor `first`, page by page into the receiver's list. */
  ghost function Transfer(list: Names, first: nat, n: nat, got: Names): (r: Names)
    requires ValidNames(list) && EndsAt(list, n) && first < n && |got| == MAX_LIST
    requires Partial(got, got, list, first, n)
    ensures |r| == MAX_LIST
    decreases n - first
  {
    var (bytes, next) := ListPage(list, first, 1);
    var g := ParsePage(got, bytes).0;
    assert bytes + [] == bytes;
    PageRoundTrip(list, first, n, got, got, []);
    if next == -1 then g else Transfer(list, next, n, g)
  }

  lemma {:induction false} TransferCopies(list: Names, first: nat, n: nat, got: Names, was: Names)
    requires ValidNames(list) && EndsAt(list, n) && first < n && |got| == |was| == MAX_LIST
    requires Partial(got, was, list, first, n)
    ensures Partial(Transfer(list, first, n, got), was, list, n, n)
    decreases n - first
  {
    hide ListPage, ParsePage;
    var (bytes, next) := ListPage(list, first, 1);
    var g := ParsePage(got, bytes).0;
    assert bytes + [] == bytes;
    PageRoundTrip(list, first, n, got, was, []);
    PageRoundTrip(list, first, n, got, got, []);
    if next != -1 {
      TransferCopies(list, next, n, g, was);
    }
  }

  // ---------- Main results ----------

  /**
   * Fed all pages in turn, the parser rebuilds the list: every name up to the first empty one after
   * index 0, and the receiver's other entries are as before, in spite of the overlap of the pages and the
   * terminators inside the list that they leave for a while.
   */
  lemma ListIsRebuilt(list: Names, n: nat, was: Names)
    requires ValidNames(list) && EndsAt(list, n) && |was| == MAX_LIST
    ensures var got := Transfer(list, 0, n, was);
            forall j :: 0 <= j < MAX_LIST ==> got[j] == if 0 < j <= n then list[j] else was[j]
  {
    hide Transfer;
    TransferCopies(list, 0, n, was, was);
  }

  /** The sender's cursor after `n` turns of the loop, -1 once it has ended. */
  function CursorAfter(list: Names, n: nat): int
    requires |list| == MAX_LIST
  {
    if n == 0 then 0
    else
      var c := CursorAfter(list, n - 1);
      if c < 0 then -1 else ListPage(list, c, 1).1
  }

  lemma {:induction false} EndsInTime(list: Names, e: nat, n: nat)
    requires ValidNames(list) && EndsAt(list, e)
    ensures CursorAfter(list, n) == -1 || n <= CursorAfter(list, n) < e
  {
    hide ListPage, ParsePage;
    if n > 0 {
      EndsInTime(list, e, n - 1);
      var c := CursorAfter(list, n - 1);
      if c != -1 {
        var got := list;
        PageRoundTrip(list, c, e, got, got, []);
      }
    }
  }

  lemma {:induction false} NoEndInPage(list: Names, i: nat, used: nat)
    requires |list| == MAX_LIST && i > 0 && forall j :: 0 < j < MAX_LIST ==> list[j] != []
    ensures NamesFrom(list, i, used).1 >= 0
    decreases MAX_LIST - i
  {
    if i < MAX_LIST {
      NoEndInPage(list, i + 1, used + |list[i] + [0]|);
    }
  }

  lemma {:induction false} NeverEnds(list: Names, n: nat)
    requires |list| == MAX_LIST && forall j :: 0 < j < MAX_LIST ==> list[j] != []
    ensures CursorAfter(list, n) >= 0
  {
    hide NamesFrom;
    if n > 0 {
      NeverEnds(list, n - 1);
      NoEndInPage(list, CursorAfter(list, n - 1) + 1, 2);
    }
  }

  lemma FirstEmpty(list: Names, k: nat) returns (e: nat)
    requires |list| == MAX_LIST && 0 < k < MAX_LIST && list[k] == []
    ensures EndsAt(list, e)
  {
    e := 1;
    while list[e] != []
      invariant 0 < e <= k && forall j :: 0 < j < e ==> list[j] != []
      decreases k - e
    {
      e := e + 1;
    }
  }

  /** The paging loop ends if and only if the list has an empty name after index 0 and before 256. */
  lemma ListPagingEnds(list: Names)
    requires ValidNames(list)
    ensures (exists n :: CursorAfter(list, n) == -1) <==> (exists k :: 0 < k < MAX_LIST && list[k] == [])
  {
    if k :| 0 < k < MAX_LIST && list[k] == [] {
      var e := FirstEmpty(list, k);
      EndsInTime(list, e, e);
      assert CursorAfter(list, e) == -1;
    } else {
      forall n
        ensures CursorAfter(list, n) != -1
      {
        NeverEnds(list, n);
      }
    }
  }

  /** A full list is not only sent for ever: the page after its last name wipes the receiver's first. */
  lemma FullListWipesFirstName(list: Names, got: Names, rest: seq<Byte>)
    requires |list| == |got| == MAX_LIST
    ensures ParsePage(got, ListPage(list, MAX_LIST, 1).0 + rest).0 == got[1 := []]
  {
    var s := ListPage(list, MAX_LIST, 1).0 + rest;
    assert s[0] == 0 && Rest(s) == [] + [0] + ([1] + rest);
    NameRoundTrip([], [1] + rest);
  }

  // ---------- The implementation ----------

  /** What one name adds to a page, and whether the page goes on. */
  lemma NamesAt(list: Names, i: nat, used: nat)
    requires |list| == MAX_LIST && i < MAX_LIST
    ensures var name, more := list[i] + [0], NamesFrom(list, i + 1, used + |list[i]| + 1);
            NamesFrom(list, i, used)
            == if list[i] == [] then (name + [0], -1)
               else if used + |name| > PAGE then (name + [0, (i - 1) % 0x100], i - 1)
               else (name + more.0, more.1)
  {
  }

  lemma NamesEnd(list: Names, i: nat, used: nat)
    requires |list| == MAX_LIST && i >= MAX_LIST
    ensures NamesFrom(list, i, used) == ([0, i % 0x100], i)
  {
  }

  /** `done` has been written and what is left to write follows from name `i`. */
  ghost predicate Written(all: (seq<Byte>, int), done: seq<Byte>, left: (seq<Byte>, int)) {
    all == (done + left.0, left.1)
  }

  lemma WrittenMore(all: (seq<Byte>, int), done: seq<Byte>, name: seq<Byte>, left: (seq<Byte>, int))
    requires Written(all, done, (name + left.0, left.1))
    ensures Written(all, done + name, left)
  {
    assert done + (name + left.0) == done + name + left.0;
  }

  lemma NothingWritten(all: (seq<Byte>, int))
    ensures Written(all, [], all)
  {
    assert [] + all.0 == all.0;
  }

  lemma WrittenAll(all: (seq<Byte>, int), head: seq<Byte>, done: seq<Byte>, name: seq<Byte>, end: seq<Byte>, r: int)
    requires Written(all, done, (name + end, r))
    ensures head + done + name + end == head + all.0 && all.1 == r
  {
    assert head + done + name + end == head + (done + (name + end));
  }

  /** The loop of SendList: names from `first` on until the list ends or the page is full. */
  method SendNames(first: nat, list: Names, msg: NetMsg) returns (r: int)
    requires ValidNames(list) && msg.Valid() && msg.cursize <= PAGE && msg.maxsize >= PAGE + MAX_QPATH + 4
    modifies msg`cursize, msg.data
    ensures msg.Valid()
    ensures var (bytes, next) := NamesFrom(list, first, |old(msg.Contents())|);
            msg.Contents() == old(msg.Contents()) + bytes && r == next
  {
    hide Clip, NamesFrom, Written;
    ghost var head := msg.Contents();
    ghost var all := NamesFrom(list, first, |head|);
    ghost var done: seq<Byte> := [];
    assert head + done == head;
    NothingWritten(all);
    var i: nat := first;
    while i < MAX_LIST
      invariant msg.Valid() && msg.cursize <= PAGE && msg.Contents() == head + done
      invariant Written(all, done, NamesFrom(list, i, msg.cursize))
      decreases MAX_LIST - i
    {
      ghost var name := list[i] + [0];
      NamesAt(list, i, msg.cursize);
      msg.WriteString(list[i]);
      if list[i] == [] {
        WrittenAll(all, head, done, name, [0], -1);
        msg.WriteByte(0);
        return -1;
      }
      if msg.cursize > PAGE {
        r := i - 1;
        WrittenAll(all, head, done, name, [0, r % 0x100], r);
        WriteEnd(msg, r);
        return;
      }
      WrittenMore(all, done, name, NamesFrom(list, i + 1, msg.cursize));
      assert head + done + name == head + (done + name);
      done := done + name;
      i := i + 1;
    }
    NamesEnd(list, i, msg.cursize);
    assert [] + [0, i % 0x100] == [0, i % 0x100] && head + done + [] == head + done;
    WrittenAll(all, head, done, [], [0, i % 0x100], i);
    WriteEnd(msg, i);
    r := i;
  }

  /** SendList, with the command byte before it. */
  method SendList(first: nat, list: Names, svc: Byte, msg: NetMsg) returns (r: int)
    requires ValidNames(list) && msg.Valid() && msg.cursize == 0 && msg.maxsize >= PAGE + MAX_QPATH + 4
    modifies msg`cursize, msg.data
    ensures msg.Valid()
    ensures var (bytes, next) := ListPage(list, first, 1); msg.Contents() == [svc] + bytes && r == next
  {
    hide Clip, NamesFrom;
    msg.WriteByte(svc);
    msg.WriteByte(first % 0x100);
    assert msg.Contents() == [svc, first % 0x100];
    r := SendNames(first + 1, list, msg);
    ghost var bytes := NamesFrom(list, first + 1, 2).0;
    assert [svc, first % 0x100] + bytes == [svc] + ([first % 0x100] + bytes);
  }

  method WriteEnd(msg: NetMsg, i: int)
    requires msg.Valid() && msg.cursize + 2 <= msg.maxsize
    modifies msg`cursize, msg.data
    ensures msg.Valid() && msg.Contents() == old(msg.Contents()) + [0, i % 0x100]
  {
    msg.WriteByte(0);
    msg.WriteByte(i % 0x100);
  }

  /** ReadString with a bounded destination: the rest of a longer string is read and dropped. */
  method ReadString(msg: NetMsg, maxlen: nat) returns (str: seq<Byte>)
    requires msg.Valid() && maxlen > 0
    modifies msg`readpos
    ensures var (s, rest) := UpToNul(old(msg.Unread()));
            str == Clip(s, maxlen - 1) && msg.Unread() == rest
  {
    str := [];
    ghost var (whole, after) := UpToNul(msg.Unread());
    var left := maxlen - 1;
    assert str + whole == whole;
    while left > 0
      invariant |str| + left == maxlen - 1
      invariant var (s, rest) := UpToNul(msg.Unread()); (str + s, rest) == (whole, after)
      decreases left
    {
      ghost var unread := msg.Unread();
      var b := msg.ReadByte();
      if b == 0 {
        assert unread == [] ==> msg.Unread() == [];
        assert str + [] == str;
        return;
      }
      assert str + ([b] + UpToNul(msg.Unread()).0) == str + [b] + UpToNul(msg.Unread()).0;
      str := str + [b];
      left := left - 1;
    }
    assert str == Clip(whole, maxlen - 1);
    var c := msg.ReadByte();
    while c != 0
      invariant if c == 0 then msg.Unread() == after else UpToNul(msg.Unread()).1 == after
      decreases |msg.Unread()|, c
    {
      c := msg.ReadByte();
    }
  }

  /** ParseList. */
  method ParseList(msg: NetMsg, list: array<seq<Byte>>) returns (next: Byte)
    requires msg.Valid() && list.Length == MAX_LIST
    modifies msg`readpos, list
    ensures (list[..], next, msg.Unread()) == ParsePage(old(list[..]), old(msg.Unread()))
  {
    hide ReadName, ParseNames, UpToNul, Clip, First, Rest, ParsePage;
    ParsePageIs(list[..], msg.Unread());
    var b := msg.ReadByte();
    var first := (b as int) + 1;
    ghost var goal := ParseNames(list[..], first, msg.Unread());
    while first < MAX_LIST
      invariant 0 < first && msg.Valid() && ParseNames(list[..], first, msg.Unread()) == goal
      decreases MAX_LIST - first
    {
      ghost var was, unread := list[..], msg.Unread();
      ParseNamesAt(was, first, unread);
      var name := ReadString(msg, MAX_QPATH);
      ReadNameIs(unread);
      ghost var after := msg.Unread();
      list[first] := name;
      assert list[..] == was[first := name] && msg.Unread() == after;
      if name == [] {
        assert goal == (list[..], msg.Unread());
        break;
      }
      first := first + 1;
    }
    if first >= MAX_LIST {
      ParseNamesAt(list[..], first, msg.Unread());
    }
    assert goal == (list[..], msg.Unread());
    next := msg.ReadByte();
  }

  lemma ParseNamesAt(list: Names, i: nat, s: seq<Byte>)
    requires |list| == MAX_LIST
    ensures ParseNames(list, i, s)
            == if i >= MAX_LIST then (list, s)
               else if ReadName(s).0 == [] then (list[i := ReadName(s).0], ReadName(s).1)
               else ParseNames(list[i := ReadName(s).0], i + 1, ReadName(s).1)
  {
    hide ReadName;
  }

  lemma ParsePageIs(list: Names, s: seq<Byte>)
    requires |list| == MAX_LIST
    ensures var (updated, rest) := ParseNames(list, First(s) + 1, Rest(s));
            ParsePage(list, s) == (updated, First(rest), Rest(rest))
  {
    hide ParseNames;
  }

  lemma ReadNameIs(s: seq<Byte>)
    ensures ReadName(s) == (Clip(UpToNul(s).0, MAX_QPATH - 1), UpToNul(s).1)
  {
  }
}
