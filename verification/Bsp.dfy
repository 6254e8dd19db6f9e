/**
 * Visibility (fteqtv/bsp.c): the leaves a sphere touches, the run-length coded visibility row of the
 * viewer's leaf, and the bit test that culls an entity. Coordinates are reals.
 */
module Bsp {
  import opened Msg

  datatype Vec = Vec(x: real, y: real, z: real)

  datatype Plane = Plane(normal: Vec, dist: real)

  /** node_t: a child below zero is -1 minus the number of a leaf. */
  datatype Node = Node(plane: Plane, front: int, back: int)

  /** What a node array stands for. */
  datatype Tree = Leaf(num: nat) | Split(plane: Plane, front: Tree, back: Tree)

  function Dot(a: Vec, b: Vec): real {
    a.x * b.x + a.y * b.y + a.z * b.z
  }

  function Minus(a: Vec, b: Vec): Vec {
    Vec(a.x - b.x, a.y - b.y, a.z - b.z)
  }

  function Side(p: Plane, v: Vec): real {
    Dot(p.normal, v) - p.dist
  }

  /** The nodes from `rn` down are `tree`; a map file whose nodes form a cycle has no such tree. */
  ghost predicate Represents(nodes: seq<Node>, rn: int, tree: Tree)
    decreases tree
  {
    match tree
    case Leaf(num) => rn == -1 - num
    case Split(plane, front, back) =>
      && 0 <= rn < |nodes| && nodes[rn].plane == plane
      && Represents(nodes, nodes[rn].front, front) && Represents(nodes, nodes[rn].back, back)
  }

  // ---------- Leaves ----------

  /** The leaf that holds a point; a point on a plane lies behind it. */
  function LeafOf(tree: Tree, v: Vec): nat {
    match tree
    case Leaf(num) => num
    case Split(plane, front, back) => if Side(plane, v) <= 0.0 then LeafOf(back, v) else LeafOf(front, v)
  }

  /** The leaves a sphere touches, front to back, without leaf 0. */
  function Touched(tree: Tree, pos: Vec, radius: real): seq<int> {
    match tree
    case Leaf(num) => if num == 0 then [] else [num]
    case Split(plane, front, back) =>
      var d := Side(plane, pos);
      if d < -radius then Touched(back, pos, radius)
      else if d > radius then Touched(front, pos, radius)
      else Touched(front, pos, radius) + Touched(back, pos, radius)
  }

  /** The list an entity keeps: visibility data starts with leaf 1. */
  function Listed(leaves: seq<int>): (r: seq<int>)
    ensures |r| == |leaves| && forall i :: 0 <= i < |r| ==> r[i] == leaves[i] - 1
  {
    seq(|leaves|, i requires 0 <= i < |leaves| => leaves[i] - 1)
  }

  /** Whether every plane has a normal of at most unit length. */
  ghost predicate Normalised(tree: Tree) {
    match tree
    case Leaf(_) => true
    case Split(plane, front, back) =>
      Dot(plane.normal, plane.normal) <= 1.0 && Normalised(front) && Normalised(back)
  }

  ghost predicate Within(pos: Vec, radius: real, v: Vec) {
    var d := Minus(v, pos);
    radius >= 0.0 && Dot(d, d) <= radius * radius
  }

  lemma Square(x: real)
    ensures x * x >= 0.0
  {
  }

  lemma Product(a: real, b: real, c: real)
    requires 0.0 <= a <= b && c >= 0.0
    ensures a * c <= b * c
  {
  }

  lemma Lagrange(a: Vec, b: Vec)
    ensures Dot(a, a) * Dot(b, b) - Dot(a, b) * Dot(a, b)
            == (a.x * b.y - a.y * b.x) * (a.x * b.y - a.y * b.x)
               + (a.x * b.z - a.z * b.x) * (a.x * b.z - a.z * b.x)
               + (a.y * b.z - a.z * b.y) * (a.y * b.z - a.z * b.y)
  {
  }

  lemma CauchySchwarz(a: Vec, b: Vec)
    ensures Dot(a, b) * Dot(a, b) <= Dot(a, a) * Dot(b, b)
    ensures Dot(a, a) >= 0.0
  {
    hide Dot;
    Lagrange(a, b);
    Square(a.x * b.y - a.y * b.x);
    Square(a.x * b.z - a.z * b.x);
    Square(a.y * b.z - a.z * b.y);
    SquaredLength(a);
  }

  lemma SquaredLength(a: Vec)
    ensures Dot(a, a) >= 0.0
  {
    Square(a.x);
    Square(a.y);
    Square(a.z);
  }

  lemma RootsAreOrdered(s: real, r: real)
    requires r >= 0.0 && s * s <= r * r
    ensures -r <= s <= r
  {
    NegatedSquare(s);
    if s > r {
      SquareGrows(s, r);
    } else if -s > r {
      SquareGrows(-s, r);
    }
  }

  lemma NegatedSquare(s: real)
    ensures (-s) * (-s) == s * s
  {
  }

  lemma SquareGrows(a: real, b: real)
    requires a > b >= 0.0
    ensures a * a > b * b
  {
    Positive(a - b, a + b);
    assert (a - b) * (a + b) == a * a - b * b;
  }

  lemma Positive(a: real, b: real)
    requires a > 0.0 && b > 0.0
    ensures a * b > 0.0
  {
  }

  /** Moving by at most the radius changes the side of a plane by at most the radius. */
  lemma SideMovesLittle(p: Plane, pos: Vec, radius: real, v: Vec)
    requires Dot(p.normal, p.normal) <= 1.0 && Within(pos, radius, v)
    ensures Side(p, pos) - radius <= Side(p, v) <= Side(p, pos) + radius
  {
    var d := Minus(v, pos);
    assert Side(p, v) - Side(p, pos) == Dot(p.normal, d) by {
      DotOfDifference(p.normal, v, pos);
    }
    assert Dot(p.normal, d) * Dot(p.normal, d) <= radius * radius by {
      hide Dot;
      CauchySchwarz(p.normal, d);
      SquaredLength(d);
      Product(Dot(p.normal, p.normal), 1.0, Dot(d, d));
    }
    RootsAreOrdered(Dot(p.normal, d), radius);
  }

  lemma DotOfDifference(n: Vec, a: Vec, b: Vec)
    ensures Dot(n, Minus(a, b)) == Dot(n, a) - Dot(n, b)
  {
    assert n.x * (a.x - b.x) == n.x * a.x - n.x * b.x;
    assert n.y * (a.y - b.y) == n.y * a.y - n.y * b.y;
    assert n.z * (a.z - b.z) == n.z * a.z - n.z * b.z;
  }

  /** The leaf of a point within the sphere is touched, unless it is leaf 0. */
  lemma {:induction false} LeafIsTouched(tree: Tree, pos: Vec, radius: real, v: Vec)
    requires Normalised(tree) && Within(pos, radius, v)
    ensures LeafOf(tree, v) == 0 || LeafOf(tree, v) in Touched(tree, pos, radius)
  {
    match tree
    case Leaf(_) =>
    case Split(plane, front, back) =>
      SideMovesLittle(plane, pos, radius, v);
      hide Within, Side;
      if Side(plane, v) <= 0.0 {
        LeafIsTouched(back, pos, radius, v);
      } else {
        LeafIsTouched(front, pos, radius, v);
      }
  }

  ghost predicate InFront(p: Plane, pos: Vec, radius: real) {
    exists v :: Within(pos, radius, v) && Side(p, v) >= 0.0
  }

  ghost predicate Behind(p: Plane, pos: Vec, radius: real) {
    exists v :: Within(pos, radius, v) && Side(p, v) <= 0.0
  }

  /** Nothing is searched in vain: a side of a plane exactly when the sphere has a point there. */
  lemma SidesSearched(p: Plane, front: Tree, back: Tree, pos: Vec, radius: real)
    requires Dot(p.normal, p.normal) == 1.0 && radius >= 0.0
    ensures Touched(Split(p, front, back), pos, radius)
            == (if InFront(p, pos, radius) then Touched(front, pos, radius) else [])
               + (if Behind(p, pos, radius) then Touched(back, pos, radius) else [])
  {
    hide Touched, Within;
    TouchedAt(Split(p, front, back), pos, radius);
    Farthest(p, pos, radius, radius);
    Farthest(p, pos, radius, -radius);
    SphereSides(p, pos, radius);
    assert Touched(front, pos, radius) + [] == Touched(front, pos, radius);
    assert [] + Touched(back, pos, radius) == Touched(back, pos, radius);
  }

  lemma SphereSides(p: Plane, pos: Vec, radius: real)
    requires Dot(p.normal, p.normal) == 1.0 && radius >= 0.0
    ensures InFront(p, pos, radius) ==> Side(p, pos) >= -radius
    ensures Behind(p, pos, radius) ==> Side(p, pos) <= radius
  {
    hide Within, Side;
    if v :| Within(pos, radius, v) && Side(p, v) >= 0.0 {
      SideMovesLittle(p, pos, radius, v);
    }
    if v :| Within(pos, radius, v) && Side(p, v) <= 0.0 {
      SideMovesLittle(p, pos, radius, v);
    }
  }

  /** The point at a distance along a normal. */
  function Moved(pos: Vec, n: Vec, t: real): Vec {
    Vec(pos.x + t * n.x, pos.y + t * n.y, pos.z + t * n.z)
  }

  lemma Stretched(n: real, b: real, t: real)
    ensures n * (b + t * n) == n * b + t * (n * n)
  {
  }

  lemma MovedSide(p: Plane, pos: Vec, t: real)
    requires Dot(p.normal, p.normal) == 1.0
    ensures Side(p, Moved(pos, p.normal, t)) == Side(p, pos) + t
  {
    var n := p.normal;
    Stretched(n.x, pos.x, t);
    Stretched(n.y, pos.y, t);
    Stretched(n.z, pos.z, t);
    assert Dot(n, Moved(pos, n, t)) == Dot(n, pos) + t * (n.x * n.x + n.y * n.y + n.z * n.z);
  }

  lemma MovedWithin(pos: Vec, n: Vec, radius: real, t: real)
    requires Dot(n, n) == 1.0 && radius >= 0.0 && (t == radius || t == -radius)
    ensures Within(pos, radius, Moved(pos, n, t))
  {
    hide Dot;
    StretchedLength(n, t);
    NegatedSquare(radius);
    assert Minus(Moved(pos, n, t), pos) == Vec(t * n.x, t * n.y, t * n.z);
  }

  /** The points of the sphere straight in front of the centre and behind it. */
  lemma Farthest(p: Plane, pos: Vec, radius: real, t: real)
    requires Dot(p.normal, p.normal) == 1.0 && radius >= 0.0 && (t == radius || t == -radius)
    ensures Side(p, pos) + t >= 0.0 ==> InFront(p, pos, radius)
    ensures Side(p, pos) + t <= 0.0 ==> Behind(p, pos, radius)
  {
    hide Dot, Side, Within, Moved;
    var v := Moved(pos, p.normal, t);
    MovedSide(p, pos, t);
    MovedWithin(pos, p.normal, radius, t);
    assert Within(pos, radius, v) && Side(p, v) == Side(p, pos) + t;
  }

  lemma StretchedLength(n: Vec, t: real)
    ensures Dot(Vec(t * n.x, t * n.y, t * n.z), Vec(t * n.x, t * n.y, t * n.z)) == t * t * Dot(n, n)
  {
    assert (t * n.x) * (t * n.x) == t * t * (n.x * n.x);
    assert (t * n.y) * (t * n.y) == t * t * (n.y * n.y);
    assert (t * n.z) * (t * n.z) == t * t * (n.z * n.z);
  }

  // ---------- Visibility rows ----------

  /** A coded row: bytes other than zero stand for themselves, a zero is followed by a count of zeros. */
  datatype Run = Literal(b: Byte) | Zeros(n: Byte)

  ghost predicate ValidRun(r: Run) {
    r.Literal? ==> r.b != 0
  }

  function Coded(runs: seq<Run>): seq<Byte> {
    if runs == [] then []
    else (match runs[0] case Literal(b) => [b] case Zeros(n) => [0, n]) + Coded(runs[1..])
  }

  /** The bits a coded row stands for. */
  function Meaning(runs: seq<Run>): seq<Byte> {
    if runs == [] then []
    else (match runs[0] case Literal(b) => [b] case Zeros(n) => ZeroBytes(n)) + Meaning(runs[1..])
  }

  /** What DecompressVis writes until it has `count` bytes; the last run of zeros may go further. */
  function Expanded(s: seq<Byte>, count: int): (r: seq<Byte>)
    decreases |s|
  {
    if count <= 0 || s == [] then []
    else if s[0] != 0 then [s[0]] + Expanded(s[1..], count - 1)
    else if |s| == 1 then []
    else ZeroBytes(s[1]) + Expanded(s[2..], count - s[1])
  }

  /** Whether DecompressVis finds `count` bytes before the end of the lump. */
  predicate Enough(s: seq<Byte>, count: int)
    decreases |s|
  {
    count <= 0 || (s != [] && if s[0] != 0 then Enough(s[1..], count - 1)
                              else |s| > 1 && Enough(s[2..], count - s[1]))
  }

  lemma {:induction false} ExpandedLength(s: seq<Byte>, count: int)
    requires Enough(s, count)
    ensures |Expanded(s, count)| >= count
    ensures |Expanded(s, count)| < if count <= 0 then 1 else count + 0xff
    decreases |s|
  {
    if count > 0 {
      if s[0] != 0 {
        ExpandedLength(s[1..], count - 1);
      } else {
        ExpandedLength(s[2..], count - s[1]);
      }
    }
  }

  /** The bytes of the row in the buffer. */
  function Decompressed(s: seq<Byte>, count: nat): (r: seq<Byte>)
    requires Enough(s, count)
    ensures |r| == count
  {
    ExpandedLength(s, count);
    Expanded(s, count)[..count]
  }

  lemma EnoughCoded(run: Run, runs: seq<Run>, rest: seq<Byte>, count: int)
    requires ValidRun(run)
    ensures var n := if run.Literal? then 1 else run.n;
            var s := Coded([run] + runs) + rest;
            && Enough(s, count) == (count <= 0 || Enough(Coded(runs) + rest, count - n))
            && (count > 0 ==> Expanded(s, count) == Meaning([run]) + Expanded(Coded(runs) + rest, count - n))
  {
    var s := Coded([run] + runs) + rest;
    var tail := Coded(runs) + rest;
    assert ([run] + runs)[1..] == runs && [run][1..] == [];
    match run
    case Literal(b) =>
      assert s == [b] + tail && s[1..] == tail;
      assert Meaning([run]) == [b];
    case Zeros(n) =>
      assert s == [0, n] + tail && s[2..] == tail;
      assert Meaning([run]) == ZeroBytes(n);
  }

  lemma MeaningHead(runs: seq<Run>)
    requires runs != []
    ensures Meaning(runs) == Meaning([runs[0]]) + Meaning(runs[1..])
    ensures |Meaning([runs[0]])| == if runs[0].Literal? then 1 else runs[0].n
  {
    var one := [runs[0]];
    assert one[1..] == [];
    assert Meaning(one) == match runs[0] case Literal(b) => [b] case Zeros(n) => ZeroBytes(n);
  }

  lemma {:induction false} RowsAgree(runs: seq<Run>, rest: seq<Byte>, count: int)
    requires forall r :: r in runs ==> ValidRun(r)
    requires count <= |Meaning(runs)|
    ensures Enough(Coded(runs) + rest, count)
    ensures count >= 0 ==> count <= |Expanded(Coded(runs) + rest, count)|
    ensures count >= 0 ==> Expanded(Coded(runs) + rest, count)[..count] == Meaning(runs)[..count]
    decreases |runs|
  {
    if count > 0 {
      hide Coded, Enough, Expanded, Meaning;
      assert runs != [] by {
        if runs == [] { NoMeaning(); }
      }
      MeaningHead(runs);
      var head, more := Meaning([runs[0]]), Meaning(runs[1..]);
      var n := |head|;
      assert [runs[0]] + runs[1..] == runs;
      EnoughCoded(runs[0], runs[1..], rest, count);
      RowsAgree(runs[1..], rest, count - n);
      PrefixOfSum(head, Expanded(Coded(runs[1..]) + rest, count - n), more, count);
    } else {
      hide Coded, Meaning;
    }
  }

  lemma NoMeaning()
    ensures Meaning([]) == []
  {
  }

  /** The coded row of a leaf is expanded to the bits it stands for, whatever follows it in the lump. */
  lemma RowRoundTrip(runs: seq<Run>, rest: seq<Byte>, count: nat)
    requires forall r :: r in runs ==> ValidRun(r)
    requires count <= |Meaning(runs)|
    ensures Enough(Coded(runs) + rest, count)
    ensures Decompressed(Coded(runs) + rest, count) == Meaning(runs)[..count]
  {
    hide Coded, Enough, Expanded, Meaning;
    RowsAgree(runs, rest, count);
  }

  lemma PrefixOfSum(head: seq<Byte>, a: seq<Byte>, b: seq<Byte>, count: nat)
    requires count > |head| ==> count - |head| <= |a| && count - |head| <= |b|
    requires count > |head| ==> a[..count - |head|] == b[..count - |head|]
    ensures count <= |head + a| && count <= |head + b| && (head + a)[..count] == (head + b)[..count]
  {
    if count > |head| {
      assert (head + a)[..count] == head + a[..count - |head|];
      assert (head + b)[..count] == head + b[..count - |head|];
    } else {
      assert (head + a)[..count] == head[..count] == (head + b)[..count];
    }
  }

  /** The bit of a leaf in a row. */
  function Power(k: int): (r: int)
    ensures r > 0
  {
    if k <= 0 then 1 else if k == 1 then 2 else if k == 2 then 4 else if k == 3 then 8
    else if k == 4 then 0x10 else if k == 5 then 0x20 else if k == 6 then 0x40 else 0x80
  }

  predicate BitSet(row: seq<Byte>, n: int) {
    0 <= n / 8 < |row| && row[n / 8] / Power(n % 8) % 2 == 1
  }

  /** BSP_Visible: a negative count means that there were too many leaves to list. */
  predicate Visible(row: seq<Byte>, list: seq<int>, count: int)
    requires count <= |list|
  {
    count < 0 || exists i :: 0 <= i < count && BitSet(row, list[i])
  }

  function CountOrOverflow(n: nat, max: int): int {
    if n > max then -1 else n
  }

  function AtMost(s: seq<int>, max: nat): seq<int> {
    if |s| <= max then s else s[..max]
  }

  ghost function Splice(was: seq<int>, lo: nat, items: seq<int>): (r: seq<int>)
    requires lo + |items| <= |was|
    ensures |r| == |was|
  {
    was[..lo] + items + was[lo + |items|..]
  }

  /** The result and the list when the leaves are `all`. */
  ghost predicate Finished(now: seq<int>, was: seq<int>, lo: nat, max: nat, r: int, all: seq<int>) {
    && r == CountOrOverflow(|all|, max) && lo + max <= |was|
    && now == Splice(was, lo, Listed(AtMost(all, max)))
  }

  // ---------- Main results ----------

  /** A point at the height `t` above a plane, or below it, is at that height, and in front of it if above. */
  lemma SideIsHeight(p: Plane, base: Vec, t: real, front: Tree, back: Tree)
    requires Dot(p.normal, p.normal) == 1.0 && Dot(p.normal, base) == p.dist
    ensures var v := Moved(base, p.normal, t);
            && Side(p, v) == t
            && LeafOf(Split(p, front, back), v) == if t > 0.0 then LeafOf(front, v) else LeafOf(back, v)
  {
    hide Dot, Moved;
    MovedSide(p, base, t);
    assert Side(p, base) == 0.0;
  }

  /** On the planes across the axes it is the coordinate. */
  lemma AxialSides(v: Vec, dist: real)
    ensures Side(Plane(Vec(1.0, 0.0, 0.0), dist), v) == v.x - dist
    ensures Side(Plane(Vec(0.0, 1.0, 0.0), dist), v) == v.y - dist
    ensures Side(Plane(Vec(0.0, 0.0, 1.0), dist), v) == v.z - dist
    ensures Side(Plane(Vec(0.0, 0.0, -1.0), dist), v) == -v.z - dist
  {
  }

  /** The bits of a byte, and of a row, the lowest first. */
  function ByteBits(b: Byte): (r: seq<bool>)
    ensures |r| == 8
  {
    [b % 2 == 1, b / 2 % 2 == 1, b / 4 % 2 == 1, b / 8 % 2 == 1,
     b / 16 % 2 == 1, b / 32 % 2 == 1, b / 64 % 2 == 1, b / 128 % 2 == 1]
  }

  function RowBits(row: seq<Byte>): (r: seq<bool>)
    ensures |r| == 8 * |row|
  {
    if row == [] then [] else ByteBits(row[0]) + RowBits(row[1..])
  }

  lemma ByteBit(b: Byte, k: nat)
    requires k < 8
    ensures ByteBits(b)[k] == (b / Power(k) % 2 == 1)
  {
  }

  lemma {:induction false} BitOfRow(row: seq<Byte>, n: nat)
    requires n < 8 * |row|
    ensures RowBits(row)[n] == BitSet(row, n)
    decreases |row|
  {
    hide ByteBits, Power;
    if n < 8 {
      assert RowBits(row)[n] == ByteBits(row[0])[n];
      ByteBit(row[0], n);
    } else {
      assert RowBits(row)[n] == RowBits(row[1..])[n - 8];
      BitOfRow(row[1..], n - 8);
      assert (n - 8) / 8 == n / 8 - 1 && (n - 8) % 8 == n % 8;
    }
  }

  /** The lump has this coded row at an offset, whatever follows it. */
  ghost predicate HasRow(lump: seq<Byte>, ofs: int, runs: seq<Run>) {
    && 0 <= ofs <= |lump| && (forall r :: r in runs ==> ValidRun(r)) && Coded(runs) <= lump[ofs..]
  }

  /** The row marks a leaf as visible; leaf 0 has no bit. */
  predicate Marks(runs: seq<Run>, leaf: nat) {
    0 < leaf <= 8 * |Meaning(runs)| && RowBits(Meaning(runs))[leaf - 1]
  }

  lemma RowInLump(lump: seq<Byte>, ofs: int, runs: seq<Run>, count: nat)
    requires HasRow(lump, ofs, runs) && count <= |Meaning(runs)|
    ensures Enough(lump[ofs..], count) && Decompressed(lump[ofs..], count) == Meaning(runs)[..count]
  {
    hide Coded, Enough, Decompressed, Meaning;
    var rest := lump[ofs..][|Coded(runs)|..];
    assert Coded(runs) + rest == lump[ofs..];
    RowRoundTrip(runs, rest, count);
  }

  /**
   * Culling is conservative. `lump` and `offsets` are the visibility lump of a map and where the rows of its leaves
   * start in it, `runs` is the row of the viewer's leaf, `buffer` is what SetupForPosition leaves in its buffer, and
   * `list` and `n` what SphereLeafNums makes of an entity. If TestVisible then finds the entity invisible, no point
   * within its radius lies in a leaf that the row of the viewer's leaf marks as visible.
   */
  lemma CullingIsConservative(tree: Tree, viewer: Vec, lump: seq<Byte>, offsets: seq<int>, runs: seq<Run>,
                              buffer: seq<Byte>, pos: Vec, radius: real, max: nat, was: seq<int>, list: seq<int>,
                              n: int, v: Vec)
    requires Normalised(tree) && LeafOf(tree, viewer) < |offsets|
    requires HasRow(lump, offsets[LeafOf(tree, viewer)], runs) && (|offsets| + 7) / 8 <= |Meaning(runs)|
    requires Holds(buffer, tree, viewer, lump, offsets)
    requires Finished(list, was, 0, max, n, Touched(tree, pos, radius))
    requires Within(pos, radius, v) && LeafOf(tree, v) <= |offsets|
    ensures n <= |list| && (!Visible(buffer, list, n) ==> !Marks(runs, LeafOf(tree, v)))
  {
    hide Within, Normalised, Coded, Enough, Meaning, BitSet, Touched, LeafOf, Finished, HasRow, RowBits;
    var leaves, leaf, count := Touched(tree, pos, radius), LeafOf(tree, v), (|offsets| + 7) / 8;
    RowInLump(lump, offsets[LeafOf(tree, viewer)], runs, count);
    LeafIsTouched(tree, pos, radius, v);
    VisibleExactlyWhen(leaves, max, was, list, n, buffer);
    if Marks(runs, leaf) {
      BitOfRow(Meaning(runs), leaf - 1);
      SameBit(Meaning(runs), buffer, count, leaf - 1);
      assert leaf in leaves && BitSet(buffer, leaf - 1);
    }
  }

  /** The buffer starts with the row of the viewer's leaf, for as many bytes as the leaves have bits. */
  ghost predicate Holds(buffer: seq<Byte>, tree: Tree, viewer: Vec, lump: seq<Byte>, offsets: seq<int>) {
    var leaf, count := LeafOf(tree, viewer), (|offsets| + 7) / 8;
    && leaf < |offsets| && count <= |buffer|
    && forall runs :: HasRow(lump, offsets[leaf], runs) && count <= |Meaning(runs)| ==>
         buffer[..count] == Meaning(runs)[..count]
  }

  lemma SameBit(a: seq<Byte>, row: seq<Byte>, count: nat, n: nat)
    requires count <= |row| && count <= |a| && a[..count] == row[..count] && n < 8 * count && BitSet(a, n)
    ensures BitSet(row, n)
  {
    assert a[..count][n / 8] == row[..count][n / 8];
  }

  /**
   * An entity is culled exactly when its leaves fitted the list and none of them is marked; the result of
   * SphereLeafNums is negative exactly when there are more than `max` of them.
   */
  lemma VisibleExactlyWhen(leaves: seq<int>, max: nat, was: seq<int>, list: seq<int>, n: int, row: seq<Byte>)
    requires Finished(list, was, 0, max, n, leaves)
    ensures n <= |list| && (n < 0 <==> |leaves| > max)
    ensures Visible(row, list, n) <==> |leaves| > max || exists leaf :: leaf in leaves && BitSet(row, leaf - 1)
  {
    hide BitSet, Finished;
    ListIs(leaves, max, was, list, n);
    if |leaves| <= max {
      if leaf :| leaf in leaves && BitSet(row, leaf - 1) {
        var i :| 0 <= i < |leaves| && leaves[i] == leaf;
        assert BitSet(row, list[i]);
      }
      if i :| 0 <= i < |leaves| && BitSet(row, list[i]) {
        assert leaves[i] in leaves && BitSet(row, leaves[i] - 1);
      }
    }
  }

  lemma ListIs(leaves: seq<int>, max: nat, was: seq<int>, list: seq<int>, n: int)
    requires Finished(list, was, 0, max, n, leaves)
    ensures n == CountOrOverflow(|leaves|, max) && n <= |list|
    ensures n >= 0 ==> forall i :: 0 <= i < n ==> list[i] == leaves[i] - 1
  {
  }

  // ---------- The implementation ----------

  class BspModel {
    const nodes: seq<Node>
    const pvslump: seq<Byte>
    const pvsofs: seq<int>
    const pvsbytecount: nat
    const decpvs: array<Byte>

    constructor (nodes: seq<Node>, pvslump: seq<Byte>, pvsofs: seq<int>, size: nat)
      ensures this.nodes == nodes && this.pvslump == pvslump && this.pvsofs == pvsofs
      ensures pvsbytecount == (|pvsofs| + 7) / 8 && fresh(decpvs) && decpvs.Length == size
    {
      this.nodes := nodes;
      this.pvslump := pvslump;
      this.pvsofs := pvsofs;
      pvsbytecount := (|pvsofs| + 7) / 8;
      decpvs := new Byte[size];
    }

    /** BSP_SphereLeafNums_r, writing from list[lo] on. */
    method SphereLeafNumsFrom(first: int, max: nat, list: array<int>, lo: nat, pos: Vec, radius: real, ghost tree: Tree)
      returns (r: int)
      requires Represents(nodes, first, tree) && lo + max <= list.Length
      modifies list
      ensures Finished(list[..], old(list[..]), lo, max, r, Touched(tree, pos, radius))
      decreases tree
    {
      hide Side, Touched, Represents, Progress, CountOrOverflow, Finished;
      var rn := first;
      var num := 0;
      ghost var all, was := Touched(tree, pos, radius), list[..];
      ghost var t, done: seq<int> := tree, [];
      Start(was, lo, max, all);
      while rn >= 0
        invariant Represents(nodes, rn, t) && (t == tree || t < tree)
        invariant 0 <= num <= max && Progress(list[..], was, lo, max, num, done, Touched(t, pos, radius), all)
        decreases t
      {
        RepresentsAt(nodes, rn, t);
        var node := nodes[rn];
        var dot := Side(node.plane, pos);
        TouchedAt(t, pos, radius);
        if dot < -radius {
          rn := node.back;
          t := t.back;
        } else if dot > radius {
          rn := node.front;
          t := t.front;
        } else {
          ghost var before, front := list[..], Touched(t.front, pos, radius);
          var n := SphereLeafNumsFrom(node.front, max - num, list, lo + num, pos, radius, t.front);
          AfterFront(list[..], before, was, lo, max, num, n, done, front, Touched(t.back, pos, radius), all);
          if n < 0 {
            return -1;
          }
          num := num + n;
          done := done + front;
          rn := node.back;
          t := t.back;
        }
      }
      RepresentsAt(nodes, rn, t);
      TouchedAt(t, pos, radius);
      rn := -1 - rn;
      AtEnd(list[..], was, lo, max, num, done, rn, all);
      if rn <= 0 {
      } else if max > num {
        list[lo + num] := rn - 1;
        num := num + 1;
      } else {
        return -1;
      }
      return num;
    }
  }

  lemma RepresentsAt(nodes: seq<Node>, rn: int, tree: Tree)
    requires Represents(nodes, rn, tree)
    ensures rn >= 0 <==> tree.Split?
    ensures tree.Leaf? ==> -1 - rn == tree.num
    ensures tree.Split? ==>
              && rn < |nodes| && nodes[rn].plane == tree.plane
              && Represents(nodes, nodes[rn].front, tree.front) && Represents(nodes, nodes[rn].back, tree.back)
  {
  }

  /** The list holds the leaves `done`, and `left` are still to come. */
  ghost predicate Progress(now: seq<int>, was: seq<int>, lo: nat, max: nat, num: int, done: seq<int>, left: seq<int>,
                           all: seq<int>) {
    && num == |done| <= max && lo + max <= |was| && done + left == all
    && now == Splice(was, lo, Listed(done))
  }

  lemma Start(was: seq<int>, lo: nat, max: nat, all: seq<int>)
    requires lo + max <= |was|
    ensures Progress(was, was, lo, max, 0, [], all, all)
  {
    assert [] + all == all;
    SpliceNothing(was, lo);
  }

  lemma AfterFront(now: seq<int>, before: seq<int>, was: seq<int>, lo: nat, max: nat, num: nat, n: int,
                   done: seq<int>, front: seq<int>, back: seq<int>, all: seq<int>)
    requires num <= max && Progress(before, was, lo, max, num, done, front + back, all)
    requires Finished(now, before, lo + num, max - num, n, front)
    ensures n < 0 ==> Finished(now, was, lo, max, -1, all)
    ensures n >= 0 ==> num + n <= max && Progress(now, was, lo, max, num + n, done + front, back, all)
  {
    hide Splice, Listed;
    assert done + (front + back) == done + front + back;
    SpliceListed(was, lo, done, front, back, max);
  }

  lemma AtEnd(now: seq<int>, was: seq<int>, lo: nat, max: nat, num: nat, done: seq<int>, leaf: nat, all: seq<int>)
    requires num <= max && Progress(now, was, lo, max, num, done, if leaf == 0 then [] else [leaf], all)
    ensures leaf == 0 ==> Finished(now, was, lo, max, num, all)
    ensures leaf > 0 && num < max ==>
              lo + num < |now| && Finished(now[lo + num := leaf - 1], was, lo, max, num + 1, all)
    ensures leaf > 0 && num == max ==> Finished(now, was, lo, max, -1, all)
  {
    hide Splice, Listed;
    if leaf == 0 {
      assert all == done;
    } else if num < max {
      SpliceOne(now, lo + num, leaf);
      SpliceListed(was, lo, done, [leaf], [], max);
    } else {
      assert AtMost(all, max) == done;
    }
  }

  lemma SpliceNothing(was: seq<int>, lo: nat)
    requires lo <= |was|
    ensures Splice(was, lo, Listed([])) == was
  {
  }

  lemma SpliceOne(was: seq<int>, lo: nat, leaf: int)
    requires lo < |was|
    ensures Splice(was, lo, Listed([leaf])) == was[lo := leaf - 1]
  {
  }

  lemma SpliceMore(was: seq<int>, lo: nat, a: seq<int>, b: seq<int>)
    requires lo + |a| + |b| <= |was|
    ensures Splice(Splice(was, lo, a), lo + |a|, b) == Splice(was, lo, a + b)
  {
  }

  /** Listing `more` after `done`, as far as there is room. */
  lemma SpliceListed(was: seq<int>, lo: nat, done: seq<int>, more: seq<int>, rest: seq<int>, max: nat)
    requires |done| <= max && lo + max <= |was|
    ensures Splice(Splice(was, lo, Listed(done)), lo + |done|, Listed(AtMost(more, max - |done|)))
            == Splice(was, lo, Listed(AtMost(done + more, max)))
    ensures |done + more| > max ==> AtMost(done + more + rest, max) == AtMost(done + more, max)
  {
    var some := AtMost(more, max - |done|);
    assert AtMost(done + more, max) == done + some;
    SpliceMore(was, lo, Listed(done), Listed(some));
    assert Listed(done) + Listed(some) == Listed(done + some);
  }

  lemma TouchedAt(tree: Tree, pos: Vec, radius: real)
    ensures match tree
            case Leaf(num) => Touched(tree, pos, radius) == if num == 0 then [] else [num]
            case Split(plane, front, back) =>
              var d := Side(plane, pos);
              Touched(tree, pos, radius)
              == if d < -radius then Touched(back, pos, radius)
                 else if d > radius then Touched(front, pos, radius)
                 else Touched(front, pos, radius) + Touched(back, pos, radius)
  {
  }

  /** BSP_SphereLeafNums; without a map nothing is listed. */
  method SphereLeafNums(bsp: BspModel?, max: nat, list: array<int>, x: real, y: real, z: real, radius: real,
                        ghost tree: Tree)
    returns (r: int)
    requires bsp != null ==> Represents(bsp.nodes, 0, tree) && max <= list.Length
    modifies list
    ensures bsp == null ==> r == 0 && list[..] == old(list[..])
    ensures bsp != null ==> Finished(list[..], old(list[..]), 0, max, r, Touched(tree, Vec(x, y, z), radius))
  {
    if bsp == null {
      return 0;
    }
    r := bsp.SphereLeafNumsFrom(0, max, list, 0, Vec(x, y, z), radius, tree);
  }

  /** BSP_LeafNum. */
  method LeafNum(bsp: BspModel?, x: real, y: real, z: real, ghost tree: Tree) returns (r: nat)
    requires bsp != null ==> Represents(bsp.nodes, 0, tree)
    ensures r == if bsp == null then 0 else LeafOf(tree, Vec(x, y, z))
  {
    if bsp == null {
      return 0;
    }
    var rn := 0;
    ghost var t := tree;
    while rn >= 0
      invariant Represents(bsp.nodes, rn, t) && LeafOf(t, Vec(x, y, z)) == LeafOf(tree, Vec(x, y, z))
      decreases t
    {
      var node := bsp.nodes[rn];
      var dot := Dot(node.plane.normal, Vec(x, y, z));
      if dot - node.plane.dist <= 0.0 {
        rn := node.back;
        t := t.back;
      } else {
        rn := node.front;
        t := t.front;
      }
    }
    r := -1 - rn;
  }

  /** `done` written over the front of `was`. */
  ghost function Over(was: seq<Byte>, done: seq<Byte>): (r: seq<Byte>)
    requires |done| <= |was|
    ensures |r| == |was|
  {
    done + was[|done|..]
  }

  lemma OverMore(was: seq<Byte>, done: seq<Byte>, b: Byte)
    requires |done| < |was|
    ensures Over(was, done)[|done| := b] == Over(was, done + [b])
  {
  }

  lemma ExpandedAt(s: seq<Byte>, count: int)
    requires Enough(s, count)
    ensures count <= 0 ==> Expanded(s, count) == []
    ensures count > 0 ==> s != []
    ensures count > 0 && s[0] != 0 ==>
              Enough(s[1..], count - 1) && Expanded(s, count) == [s[0]] + Expanded(s[1..], count - 1)
    ensures count > 0 && s[0] == 0 ==>
              && |s| > 1 && Enough(s[2..], count - s[1])
              && Expanded(s, count) == ZeroBytes(s[1]) + Expanded(s[2..], count - s[1])
  {
  }

  /** DecompressVis; as in the source nothing but the coded data keeps the writes inside the buffer. */
  method DecompressVis(input: seq<Byte>, out: array<Byte>, bytecount: nat)
    requires Enough(input, bytecount) && |Expanded(input, bytecount)| <= out.Length
    modifies out
    ensures out[..] == Over(old(out[..]), Expanded(input, bytecount))
  {
    hide Enough, Expanded, Over;
    ghost var was, all, done: seq<Byte> := out[..], Expanded(input, bytecount), [];
    var i, o := 0, 0;
    assert Over(was, []) == was by { OverNothing(was); }
    assert input[0..] == input && [] + all == all;
    while o < bytecount
      invariant 0 <= i <= |input| && o == |done| && Enough(input[i..], bytecount - o)
      invariant all == done + Expanded(input[i..], bytecount - o) && out[..] == Over(was, done)
      decreases |input| - i
    {
      ghost var s := input[i..];
      ExpandedAt(s, bytecount - o);
      var c: int := input[i];
      if c == 0 {
        c := input[i + 1];
        i := i + 2;
        ghost var n, rest := c, Expanded(input[i..], bytecount - o - c);
        assert s[2..] == input[i..];
        assert all == done + ZeroBytes(n) + rest;
        ghost var base := done;
        assert base + ZeroBytes(0) == base;
        while c > 4
          invariant 0 <= c <= n && o == |base| + n - c && out[..] == Over(was, base + ZeroBytes(n - c))
        {
          WriteZero(out, o, was, base, n - c);
          WriteZero(out, o + 1, was, base, n - c + 1);
          WriteZero(out, o + 2, was, base, n - c + 2);
          WriteZero(out, o + 3, was, base, n - c + 3);
          o := o + 4;
          c := c - 4;
        }
        while c > 0
          invariant 0 <= c <= n && o == |base| + n - c && out[..] == Over(was, base + ZeroBytes(n - c))
        {
          WriteZero(out, o, was, base, n - c);
          o := o + 1;
          c := c - 1;
        }
        done := base + ZeroBytes(n);
      } else {
        i := i + 1;
        assert s[1..] == input[i..];
        OverMore(was, done, c);
        assert all == done + [c] + Expanded(input[i..], bytecount - o - 1);
        out[o] := c;
        o := o + 1;
        done := done + [c];
      }
    }
    ExpandedAt(input[i..], bytecount - o);
    assert done + [] == done;
  }

  lemma OverNothing(was: seq<Byte>)
    ensures Over(was, []) == was
  {
  }

  method WriteZero(out: array<Byte>, o: nat, ghost was: seq<Byte>, ghost base: seq<Byte>, ghost k: nat)
    requires o == |base| + k < out.Length == |was| && out[..] == Over(was, base + ZeroBytes(k))
    modifies out
    ensures out[..] == Over(was, base + ZeroBytes(k + 1))
  {
    OverMore(was, base + ZeroBytes(k), 0);
    assert base + ZeroBytes(k) + [0] == base + ZeroBytes(k + 1);
    out[o] := 0;
  }

  /** Nothing but the coded data keeps DecompressVis inside the lump and the buffer. */
  ghost predicate Sane(bsp: BspModel, tree: Tree, viewer: Vec) {
    var leaf := LeafOf(tree, viewer);
    && Represents(bsp.nodes, 0, tree) && leaf < |bsp.pvsofs| && 0 <= bsp.pvsofs[leaf] <= |bsp.pvslump|
    && bsp.pvsbytecount == (|bsp.pvsofs| + 7) / 8
    && Enough(bsp.pvslump[bsp.pvsofs[leaf]..], bsp.pvsbytecount)
    && |Expanded(bsp.pvslump[bsp.pvsofs[leaf]..], bsp.pvsbytecount)| <= bsp.decpvs.Length
  }

  /** BSP_SetupForPosition: the buffer gets the row of the viewer's leaf, and keeps what is behind it. */
  method SetupForPosition(bsp: BspModel?, x: real, y: real, z: real, ghost tree: Tree)
    requires bsp != null ==> Sane(bsp, tree, Vec(x, y, z))
    modifies if bsp == null then {} else {bsp.decpvs}
    ensures bsp != null ==>
              && Holds(bsp.decpvs[..], tree, Vec(x, y, z), bsp.pvslump, bsp.pvsofs)
              && bsp.decpvs[..] == Over(old(bsp.decpvs[..]),
                                        Expanded(bsp.pvslump[bsp.pvsofs[LeafOf(tree, Vec(x, y, z))]..],
                                                 bsp.pvsbytecount))
  {
    hide Expanded, Enough, LeafOf, Represents, HasRow, Meaning;
    if bsp == null {
      return;
    }
    var leaf := LeafNum(bsp, x, y, z, tree);
    var row := bsp.pvslump[bsp.pvsofs[leaf]..];
    ExpandedLength(row, bsp.pvsbytecount);
    DecompressVis(row, bsp.decpvs, bsp.pvsbytecount);
    ghost var count, buffer := bsp.pvsbytecount, bsp.decpvs[..];
    forall runs | HasRow(bsp.pvslump, bsp.pvsofs[leaf], runs) && count <= |Meaning(runs)|
      ensures buffer[..count] == Meaning(runs)[..count]
    {
      RowInLump(bsp.pvslump, bsp.pvsofs[leaf], runs, count);
      assert buffer[..count] == Expanded(row, count)[..count];
    }
  }

  /** BSP_Visible. */
  method TestVisible(bsp: BspModel?, count: int, list: array<int>) returns (r: bool)
    requires count <= list.Length
    requires bsp != null ==> forall i :: 0 <= i < count ==> 0 <= list[i] < 8 * bsp.decpvs.Length
    ensures r == (bsp == null || Visible(bsp.decpvs[..], list[..], count))
  {
    if bsp == null {
      return true;
    }
    if count < 0 {
      return true;
    }
    for i := 0 to count
      invariant forall j :: 0 <= j < i ==> !BitSet(bsp.decpvs[..], list[..][j])
    {
      if bsp.decpvs[list[i] / 8] / Power(list[i] % 8) % 2 == 1 {
        assert BitSet(bsp.decpvs[..], list[..][i]);
        return true;
      }
    }
    return false;
  }

  /**
   * The culling of SendPlayerStates: the viewer's own player and the one that is tracked are always shown, others when
   * they are active and visible from where the viewer is.
   */
  method ShownPlayers(bsp: BspModel?, viewer: Vec, thisplayer: int, track: int, active: seq<bool>, counts: seq<int>,
                      lists: seq<array<int>>, ghost tree: Tree)
    returns (shown: seq<bool>)
    requires bsp != null ==> Sane(bsp, tree, viewer)
    requires |active| == |counts| == |lists|
    requires forall i :: 0 <= i < |lists| ==> counts[i] <= lists[i].Length
    requires bsp != null ==>
               forall i, j :: 0 <= i < |lists| && 0 <= j < counts[i] ==> 0 <= lists[i][j] < 8 * bsp.decpvs.Length
    modifies if bsp == null then {} else {bsp.decpvs}
    ensures bsp != null ==> Holds(bsp.decpvs[..], tree, viewer, bsp.pvslump, bsp.pvsofs)
    ensures |shown| == |lists|
    ensures forall i :: 0 <= i < |lists| ==>
              shown[i] == (i == thisplayer || i == track
                           || (active[i] && (bsp == null || Visible(bsp.decpvs[..], lists[i][..], counts[i]))))
  {
    hide Holds, Sane, Visible;
    SetupForPosition(bsp, viewer.x, viewer.y, viewer.z, tree);
    shown := [];
    for i := 0 to |lists|
      invariant |shown| == i
      invariant bsp != null ==> Holds(bsp.decpvs[..], tree, viewer, bsp.pvslump, bsp.pvsofs)
      invariant forall k :: 0 <= k < i ==>
                  shown[k] == (k == thisplayer || k == track
                               || (active[k] && (bsp == null || Visible(bsp.decpvs[..], lists[k][..], counts[k]))))
    {
      var visible := i == thisplayer || i == track;
      if !visible && active[i] {
        visible := TestVisible(bsp, counts[i], lists[i]);
      }
      shown := shown + [visible];
    }
  }
}
