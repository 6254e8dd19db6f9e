/**
 * Message buffers: the byte-level writers and readers every codec of the proxy rests on.
 *
 * Writers append to a buffer of fixed capacity and silently ignore what does not fit; readers
 * consume a buffer from the front and yield zero bytes once it is exhausted.  The functions at the
 * top describe the same operations on byte sequences, and the methods of class `NetMsg` are
 * specified by them.
 */
module Msg {

  type Byte = b: int | 0 <= b < 0x100

  datatype Option<T> = None | Some(value: T)

  const MAX_MSGLEN: nat := 8192
  const MAX_QPATH: nat := 64

  // ---------- Blocks of bytes ----------

  function ZeroBytes(n: nat): (r: seq<Byte>)
    ensures |r| == n && forall i :: 0 <= i < n ==> r[i] == 0
  {
    seq(n, _ => 0)
  }

  function Flat(blocks: seq<seq<Byte>>): seq<Byte> {
    if blocks == [] then [] else blocks[0] + Flat(blocks[1..])
  }

  lemma {:induction false} FlatAppend(s: seq<seq<Byte>>, t: seq<seq<Byte>>)
    ensures Flat(s + t) == Flat(s) + Flat(t)
  {
    if s == [] {
      assert s + t == t;
    } else {
      assert (s + t)[1..] == s[1..] + t;
      FlatAppend(s[1..], t);
    }
  }

  lemma FlatOne(b: seq<Byte>)
    ensures Flat([b]) == b
  {
    assert Flat([b]) == b + Flat([]);
  }

  lemma FlatMore(s: seq<seq<Byte>>, b: seq<Byte>)
    ensures Flat(s + [b]) == Flat(s) + b
  {
    FlatAppend(s, [b]);
    FlatOne(b);
  }

  lemma FlatNone()
    ensures Flat([]) == []
  {
  }

  // ---------- Integers on the wire (little endian) ----------

  function Short(n: nat): (s: seq<Byte>)
    ensures |s| == 2
  {
    [n % 0x100, n / 0x100 % 0x100]
  }

  function Long(n: nat): (s: seq<Byte>)
    ensures |s| == 4
  {
    Short(n) + Short(n / 0x1_0000)
  }

  // ---------- Reading from the front of a byte sequence ----------

  /** The next byte; an exhausted buffer reads as zero. */
  function First(s: seq<Byte>): Byte {
    if s == [] then 0 else s[0]
  }

  function Rest(s: seq<Byte>): (r: seq<Byte>)
    ensures |r| <= |s|
    ensures s != [] ==> |r| < |s|
  {
    if s == [] then [] else s[1..]
  }

  function GetShort(s: seq<Byte>): (n: nat)
    ensures n < 0x1_0000
  {
    First(s) + 0x100 * First(Rest(s))
  }

  function RestShort(s: seq<Byte>): (r: seq<Byte>)
    ensures |r| <= |s|
    ensures s != [] ==> |r| < |s|
  {
    Rest(Rest(s))
  }

  function GetLong(s: seq<Byte>): (n: nat)
    ensures n < 0x1_0000_0000
  {
    GetShort(s) + 0x1_0000 * GetShort(RestShort(s))
  }

  function RestLong(s: seq<Byte>): (r: seq<Byte>)
    ensures |r| <= |s|
  {
    RestShort(RestShort(s))
  }

  lemma ReadFront(b: Byte, rest: seq<Byte>)
    ensures First([b] + rest) == b && Rest([b] + rest) == rest
  {
  }

  /** A 16-bit value survives the trip through two bytes. */
  lemma ShortRoundTrip(n: nat, rest: seq<Byte>)
    ensures GetShort(Short(n) + rest) == n % 0x1_0000
    ensures RestShort(Short(n) + rest) == rest
  {
    var s := Short(n) + rest;
    assert s[0] == Short(n)[0] && Rest(s)[0] == Short(n)[1];
    assert Rest(Rest(s)) == rest;
  }

  /** A 32-bit value survives the trip through four bytes. */
  lemma LongRoundTrip(n: nat, rest: seq<Byte>)
    ensures GetLong(Long(n) + rest) == n % 0x1_0000_0000
    ensures RestLong(Long(n) + rest) == rest
  {
    assert Long(n) + rest == Short(n) + (Short(n / 0x1_0000) + rest);
    ShortRoundTrip(n, Short(n / 0x1_0000) + rest);
    ShortRoundTrip(n / 0x1_0000, rest);
  }

  // ---------- Zero-terminated strings ----------

  ghost predicate NoNul(s: seq<Byte>) {
    forall i :: 0 <= i < |s| ==> s[i] != 0
  }

  /** The characters before the first zero (or the end) and what follows that zero. */
  function UpToNul(s: seq<Byte>): (r: (seq<Byte>, seq<Byte>))
    ensures |r.0| <= |s| && |r.1| <= |s|
    ensures s != [] ==> |r.1| < |s|
    ensures NoNul(r.0)
  {
    if s == [] then ([], [])
    else if s[0] == 0 then ([], s[1..])
    else var (str, rest) := UpToNul(s[1..]); ([s[0]] + str, rest)
  }

  lemma {:induction false} UpToNulRoundTrip(str: seq<Byte>, rest: seq<Byte>)
    requires NoNul(str)
    ensures UpToNul(str + [0] + rest) == (str, rest)
  {
    var s := str + [0] + rest;
    if str == [] {
      assert s[1..] == rest;
    } else {
      assert s[1..] == str[1..] + [0] + rest;
      UpToNulRoundTrip(str[1..], rest);
      assert [s[0]] + str[1..] == str;
    }
  }

  // ---------- Bounded buffers ----------

  function Clip(s: seq<Byte>, max: nat): (r: seq<Byte>)
    ensures |r| <= max && r <= s
    ensures |s| <= max ==> r == s
  {
    if |s| <= max then s else s[..max]
  }

  /** ReadString into a field of `size` characters: a longer string is cut, and read to its end. */
  function BoundedString(s: seq<Byte>, size: nat): (r: (seq<Byte>, seq<Byte>))
    requires size > 0
    ensures |r.1| <= |s| && (s != [] ==> |r.1| < |s|)
  {
    var (str, rest) := UpToNul(s);
    (Clip(str, size - 1), rest)
  }

  lemma FieldReadBack(str: seq<Byte>, rest: seq<Byte>, size: nat)
    requires NoNul(str) && |str| < size
    ensures BoundedString(str + [0] + rest, size) == (str, rest)
  {
    UpToNulRoundTrip(str, rest);
  }

  lemma ClipAppend(s: seq<Byte>, t: seq<Byte>, max: nat)
    ensures Clip(Clip(s, max) + t, max) == Clip(s + t, max)
  {
    if |s| > max {
      assert Clip(s, max) + t == s[..max] + t;
      assert (s[..max] + t)[..max] == s[..max] == (s + t)[..max] || t == [];
      assert t == [] ==> s + t == s && s[..max] + t == s[..max];
    }
  }

  /** Two appends in turn are one append of both blocks. */
  lemma ClipJoin(s: seq<Byte>, t: seq<Byte>, u: seq<Byte>, max: nat)
    ensures Clip(Clip(s + t, max) + u, max) == Clip(s + (t + u), max)
  {
    ClipAppend(s + t, u, max);
    assert s + t + u == s + (t + u);
  }

  lemma ClipAppendOne(s: seq<Byte>, t: seq<Byte>, i: nat, max: nat)
    requires i < |t|
    ensures Clip(Clip(s + t[..i], max) + [t[i]], max) == Clip(s + t[..i + 1], max)
  {
    ClipAppend(s + t[..i], [t[i]], max);
    assert s + t[..i] + [t[i]] == s + t[..i + 1];
  }

  class NetMsg {
    const data: array<Byte>
    var maxsize: nat
    var cursize: nat
    var readpos: nat

    ghost predicate Valid()
      reads this
    {
      cursize <= maxsize <= data.Length
    }

    /** What has been written so far. */
    ghost function Contents(): (s: seq<Byte>)
      requires Valid()
      reads this, data
      ensures |s| == cursize
    {
      data[..cursize]
    }

    /** What has been written and not yet read. */
    ghost function Unread(): seq<Byte>
      requires Valid()
      reads this, data
    {
      if readpos <= cursize then data[readpos..cursize] else []
    }

    constructor (size: nat)
      ensures Valid() && fresh(data) && maxsize == data.Length == size
      ensures readpos == 0 && Contents() == []
    {
      data := new Byte[size];
      maxsize, cursize, readpos := size, 0, 0;
    }

    /** Bytes beyond the capacity are dropped one at a time. */
    method WriteByte(c: Byte)
      requires Valid()
      modifies this`cursize, data
      ensures Valid() && Contents() == Clip(old(Contents()) + [c], maxsize)
    {
      if cursize >= maxsize {
        return;
      }
      data[cursize] := c;
      cursize := cursize + 1;
    }

    method WriteShort(n: nat)
      requires Valid()
      modifies this`cursize, data
      ensures Valid() && Contents() == Clip(old(Contents()) + Short(n), maxsize)
    {
      ghost var was := Contents();
      WriteByte(n % 0x100);
      WriteByte(n / 0x100 % 0x100);
      ClipAppend(was + [n % 0x100], [n / 0x100 % 0x100], maxsize);
      assert was + [n % 0x100] + [n / 0x100 % 0x100] == was + Short(n);
    }

    method WriteLong(n: nat)
      requires Valid()
      modifies this`cursize, data
      ensures Valid() && Contents() == Clip(old(Contents()) + Long(n), maxsize)
    {
      ghost var was := Contents();
      WriteShort(n);
      WriteShort(n / 0x1_0000);
      ClipAppend(was + Short(n), Short(n / 0x1_0000), maxsize);
      assert was + Short(n) + Short(n / 0x1_0000) == was + Long(n);
    }

    /** The characters without a terminator. */
    method WriteString2(str: seq<Byte>)
      requires Valid()
      modifies this`cursize, data
      ensures Valid() && Contents() == Clip(old(Contents()) + str, maxsize)
    {
      ghost var was := Contents();
      assert was + str[..0] == was;
      for i := 0 to |str|
        invariant Valid() && Contents() == Clip(was + str[..i], maxsize)
      {
        WriteByte(str[i]);
        ClipAppendOne(was, str, i, maxsize);
      }
      assert str[..|str|] == str;
    }

    method WriteString(str: seq<Byte>)
      requires Valid()
      modifies this`cursize, data
      ensures Valid() && Contents() == Clip(old(Contents()) + (str + [0]), maxsize)
    {
      ghost var was := Contents();
      WriteString2(str);
      WriteByte(0);
      ClipAppend(was + str, [0], maxsize);
      assert was + str + [0] == was + (str + [0]);
    }

    /** A block is appended whole or not at all. */
    method WriteData(block: seq<Byte>)
      requires Valid()
      modifies this`cursize, data
      ensures Valid()
      ensures Contents() == if |old(Contents())| + |block| <= maxsize then old(Contents()) + block
                            else old(Contents())
    {
      if cursize + |block| > maxsize {
        return;
      }
      for i := 0 to |block|
        invariant cursize == old(cursize) && cursize + |block| <= maxsize <= data.Length
        invariant data[..cursize] == old(Contents())
        invariant data[cursize..cursize + i] == block[..i]
      {
        data[cursize + i] := block[i];
      }
      cursize := cursize + |block|;
    }

    method ReadByte() returns (b: Byte)
      requires Valid()
      modifies this`readpos
      ensures b == First(old(Unread())) && Unread() == Rest(old(Unread()))
      ensures readpos == if old(readpos) >= cursize then cursize + 1 else old(readpos) + 1
    {
      if readpos >= cursize {
        readpos := cursize + 1;
        return 0;
      }
      b := data[readpos];
      readpos := readpos + 1;
    }

    method ReadShort() returns (n: nat)
      requires Valid()
      modifies this`readpos
      ensures n == GetShort(old(Unread())) && Unread() == RestShort(old(Unread()))
    {
      var b1 := ReadByte();
      var b2 := ReadByte();
      n := (b1 as int) + 0x100 * (b2 as int);
    }

    method ReadLong() returns (n: nat)
      requires Valid()
      modifies this`readpos
      ensures n == GetLong(old(Unread())) && Unread() == RestLong(old(Unread()))
    {
      var s1 := ReadShort();
      var s2 := ReadShort();
      n := s1 + 0x1_0000 * s2;
    }
  }
}
