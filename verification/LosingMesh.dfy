/**
 * A mesh of 37 vertices and 51 triangles, none of them degenerate, of which the vertex-cache optimiser
 * (iqm/iqm.cpp) loses some, with its own scores: a chain of triangles of which each shares a vertex with the
 * next, and for every vertex of the chain but the first a triangle with the same two hubs. The chain always
 * scores higher, and the others keep its vertices in the cache until there are 34 of them.
 */
module LosingMesh {
  import opened VertexOrder
  import opened VertexCache

  const LINKS: nat := 17
  const VERTS: nat := 37
  const TRIS: nat := 51

  /** The links of the chain, and then the triangles at the hubs. */
  function Corners(t: nat): Triangle {
    if t < LINKS then Triangle(2 * t, 2 * t + 1, 2 * t + 2) else Triangle(Rim(t), 35, 36)
  }

  function Mesh(): (m: seq<Triangle>)
    ensures |m| == TRIS && forall t :: 0 <= t < TRIS ==> m[t] == Corners(t)
  {
    seq(TRIS, t requires 0 <= t => Corners(t))
  }

  /** The vertex of the chain in a triangle at the hubs. */
  function Rim(t: nat): nat
    requires t >= LINKS
  {
    t - 16
  }

  /** The triangle at the hubs that keeps a vertex of the chain in use. */
  function Keeper(v: nat): nat
    requires v >= 1
  {
    v + 16
  }

  function Chain(n: nat): (c: seq<nat>)
    ensures |c| == n && forall i :: 0 <= i < n ==> c[i] == i
  {
    seq(n, i => i)
  }

  /** The numbers from `n` down to 1. */
  function Down(n: nat): (d: seq<nat>)
    ensures |d| == n && forall i :: 0 <= i < n ==> d[i] == n - i
  {
    seq(n, i requires 0 <= i < n => n - i)
  }

  // ---------- What is left at a vertex ----------

  lemma {:induction false} OpenAre(n: nat, v: nat, ts: seq<nat>)
    requires NoDup(ts) && forall t: nat :: t in ts <==> t < TRIS && t >= n && Corners(t).Has(v)
    ensures |Open(Mesh(), Chain(n), v)| == |ts|
  {
    hide Open;
    OpenDistinct(Mesh(), Chain(n), v, TRIS);
    OpenIsBelow(n, v);
    forall t: nat
      ensures t in Open(Mesh(), Chain(n), v) <==> t in ts
    {
      InChain(n, t);
      if t < TRIS {
        assert Mesh()[t] == Corners(t) && !Corners(t).Degenerate();
      }
    }
    SameLength(Open(Mesh(), Chain(n), v), ts);
  }

  lemma OpenIsBelow(n: nat, v: nat)
    ensures Open(Mesh(), Chain(n), v) == OpenBelow(Mesh(), Chain(n), v, TRIS)
  {
  }

  lemma InChain(n: nat, t: nat)
    ensures t in Chain(n) <==> t < n
  {
    if t < n {
      assert Chain(n)[t] == t;
    }
  }

  /** The triangles at a vertex before the start. */
  lemma OpenAtStart(v: nat)
    requires v < VERTS
    ensures |Open(Mesh(), [], v)|
            == if v == 0 then 1 else if v >= 35 then 34 else if v % 2 == 1 || v == 34 then 2 else 3
  {
    hide Open;
    assert Chain(0) == [];
    if v == 0 {
      OpenAre(0, v, [0]);
    } else if v >= 35 {
      OpenAre(0, v, HubTriangles());
    } else if v % 2 == 1 {
      OpenAre(0, v, [v / 2, Keeper(v)]);
    } else if v == 34 {
      OpenAre(0, v, [16, Keeper(v)]);
    } else {
      OpenAre(0, v, [v / 2 - 1, v / 2, Keeper(v)]);
    }
  }

  function FromTo(i: nat, n: nat): (s: seq<nat>)
    requires i <= n
    ensures |s| == n - i && NoDup(s) && forall t: nat :: t in s <==> i <= t < n
    decreases n
  {
    if i == n then []
    else
      var s := FromTo(i, n - 1);
      NoDupMore(s, n - 1);
      s + [n - 1]
  }

  function HubTriangles(): (ts: seq<nat>)
    ensures |ts| == 34 && NoDup(ts)
    ensures forall t: nat :: t in ts <==> LINKS <= t < TRIS
  {
    FromTo(LINKS, TRIS)
  }

  /** The last vertex of the chain is in two triangles that are left. */
  lemma OpenAtEnd(n: nat)
    requires 0 < n < LINKS
    ensures |Open(Mesh(), Chain(n), 2 * n)| == 2
  {
    OpenAre(n, 2 * n, [n, Keeper(2 * n)]);
  }

  lemma KeptOpen(n: nat, v: nat)
    requires 1 <= v <= 34 && n <= LINKS
    ensures Open(Mesh(), Chain(n), v) != []
  {
    hide Open;
    InChain(n, Keeper(v));
    assert OpenAt(Mesh(), Chain(n), v, Keeper(v));
    assert Keeper(v) in Open(Mesh(), Chain(n), v);
  }

  lemma FirstIsDone()
    ensures Open(Mesh(), Chain(1), 0) == []
  {
    OpenAre(1, 0, []);
  }

  // ---------- The cache along the chain ----------

  lemma WithoutOf(n: nat, v: nat)
    ensures v > n ==> Without(Down(n), v) == Down(n)
    ensures n > 0 ==> [n] + Without(Down(n), n) == Down(n)
  {
    if v > n {
      WithoutNothing(Down(n), v);
    }
    if n > 0 {
      assert Down(n)[1..] == Down(n - 1) && Down(n) == [n] + Down(n - 1);
      WithoutNothing(Down(n - 1), n);
    }
  }

  lemma TouchOf(n: nat, k: nat, v: nat)
    requires n <= LINKS && 1 <= v <= 34 && (v == k || v == k + 1)
    ensures Touch(Mesh(), Chain(n), Down(k), v) == Down(v)
  {
    hide Open, Without;
    KeptOpen(n, v);
    WithoutOf(k, v);
    assert v == k + 1 ==> [v] + Down(k) == Down(v);
  }

  /** After `n` links the cache holds all vertices from 2n down to 1. */
  lemma {:induction false} ChainCached(n: nat)
    requires 0 < n <= LINKS
    ensures Cached(Mesh(), Chain(n)) == Down(2 * n)
  {
    hide Touch, TouchFirst, Open;
    var mesh, done := Mesh(), Chain(n);
    assert done[..n - 1] == Chain(n - 1);
    if n == 1 {
      assert Chain(0) == [];
      TouchedInTurn(mesh, done, [], mesh[0]);
      FirstTouch();
      TouchOf(1, 0, 1);
      TouchOf(1, 1, 2);
      assert Down(0) == [];
    } else {
      ChainCached(n - 1);
      var k := 2 * (n - 1);
      TouchedInTurn(mesh, done, Down(k), mesh[n - 1]);
      TouchOf(n, k, k);
      TouchOf(n, k, k + 1);
      TouchOf(n, k + 1, k + 2);
    }
  }

  lemma FirstTouch()
    ensures Touch(Mesh(), Chain(1), [], 0) == []
  {
    hide Open;
    FirstIsDone();
  }

  // ---------- The scores along the chain ----------

  /** Bounds of the scores that decide every choice. */
  lemma ScoreBounds(f: Scoring, rank: int, n: nat)
    requires CalcScoring(f) && -1 <= rank <= MAXVCACHE && n > 0
    ensures f(rank, n).Num? && f(rank, n).r <= 3.0
    ensures rank == 0 && n == 2 ==> 2.16 <= f(rank, n).r <= 2.17
    ensures rank == -1 && n <= 3 ==> f(rank, n).r >= 1.15
    ensures rank == -1 && n >= 2 ==> f(rank, n).r <= 1.42
    ensures rank == -1 && n == 2 ==> f(rank, n).r >= 1.41
    ensures rank == -1 && n == 1 ==> f(rank, n).r == 2.0
    ensures rank == -1 && n == 34 ==> f(rank, n).r <= 0.35
  {
    assert IsCalcScore(f(rank, n), rank, n);
    var u, p :| UseTerm(u, n) && PlaceTerm(p, rank) && f(rank, n).r == u + p;
    UseBounds(u, n);
    PlaceBounds(p, rank);
  }

  lemma UseBounds(u: real, n: nat)
    requires UseTerm(u, n) && n > 0
    ensures u <= 2.0
    ensures n <= 3 ==> u >= 1.15
    ensures n >= 2 ==> u <= 1.42
    ensures n == 2 ==> u >= 1.41
    ensures n == 1 ==> u == 2.0
    ensures n == 34 ==> u <= 0.35
  {
    LargerRoot(u, 2.0, n, 1);
    if n == 1 {
      SmallerRoot(u, 2.0, n, 1);
    }
    if n == 2 {
      SmallerRoot(u, 1.41, n, 2);
    }
    if n <= 3 {
      SmallerRoot(u, 1.15, n, 3);
    }
    if n >= 2 {
      LargerRoot(u, 1.42, n, 2);
    }
    if n == 34 {
      LargerRoot(u, 0.35, n, 34);
    }
  }

  lemma LargerRoot(u: real, bound: real, n: nat, k: nat)
    requires UseTerm(u, n) && n >= k > 0 && bound > 0.0 && bound * bound * k as real >= 4.0
    ensures u <= bound
  {
    if u > bound {
      TermGrows(bound, u, k, n);
    }
  }

  lemma SmallerRoot(u: real, bound: real, n: nat, k: nat)
    requires UseTerm(u, n) && 0 < n <= k && bound > 0.0 && bound * bound * k as real <= 4.0
    ensures u >= bound
  {
    if u < bound {
      TermGrows(u, bound, n, k);
    }
  }

  lemma TermGrows(a: real, b: real, k: nat, n: nat)
    requires 0.0 < a < b && 0 < k <= n
    ensures a * a * k as real < b * b * n as real
  {
    Grows(a, b, a);
    Grows(a, b, b);
    var aa, ab, bb := a * a, a * b, b * b;
    assert aa < ab < bb;
    Grows(a * a, b * b, k as real);
    if k < n {
      Grows(k as real, n as real, b * b);
    }
  }

  lemma Grows(a: real, b: real, c: real)
    requires 0.0 < a < b && c > 0.0
    ensures 0.0 < a * c < b * c && c * a == a * c && c * b == b * c
  {
  }

  lemma PlaceBounds(p: real, rank: int)
    requires -1 <= rank <= MAXVCACHE && PlaceTerm(p, rank)
    ensures 0.0 <= p <= 1.0
  {
    if rank >= 3 {
      var x := 1.0 - (rank - 3) as real / 29.0;
      InUnit(x, x);
      InUnit(x * x, x);
      if p > 1.0 {
        Grows(1.0, p, p);
      }
    }
  }

  lemma InUnit(x: real, y: real)
    requires 0.0 <= x <= 1.0 && 0.0 <= y <= 1.0
    ensures 0.0 <= x * y <= 1.0
  {
    if x == 0.0 || y == 0.0 {
      assert x * y == 0.0;
    } else if y == 1.0 {
      assert x * y == x;
    } else {
      Grows(y, 1.0, x);
      assert x * y == y * x < x;
    }
  }

  /** Scores before the start: also those of vertices that have not been in the cache. */
  ghost predicate NewScore(v: nat, s: Score)
    requires v < VERTS
  {
    && s.Num?
    && (v == 0 ==> s.r == 2.0)
    && (0 < v ==> s.r <= 1.42)
    && (0 < v < 35 ==> s.r >= 1.15)
    && (0 < v < 35 && v % 2 == 1 ==> s.r >= 1.41)
    && (v >= 35 ==> s.r <= 0.35)
  }

  lemma StartScores(f: Scoring, v: nat)
    requires CalcScoring(f) && v < VERTS
    ensures NewScore(v, ScoreAt(Mesh(), f, [], v))
  {
    hide Open, CalcScoring;
    OpenAtStart(v);
    ScoreBounds(f, -1, |Open(Mesh(), [], v)|);
  }

  lemma PositionDown(k: nat, v: nat)
    requires 1 <= v <= k
    ensures v in Down(k) && Position(Down(k), v) == k - v
  {
    hide Position;
    assert Down(k)[k - v] == v;
  }

  lemma CachedScores(f: Scoring, n: nat, v: nat)
    requires CalcScoring(f) && 0 < n < LINKS && 1 <= v <= 2 * n
    ensures var s := ScoreAt(Mesh(), f, Chain(n), v); s.Num? && s.r <= 3.0 && (v == 2 * n ==> 2.16 <= s.r <= 2.17)
  {
    hide Open, Cached, CalcScoring;
    ChainCached(n);
    KeptOpen(n, v);
    PositionDown(2 * n, v);
    OpenAtEnd(n);
    ScoreBounds(f, 2 * n - v, |Open(Mesh(), Chain(n), v)|);
  }

  lemma {:induction false} NewScores(f: Scoring, n: nat, v: nat)
    requires CalcScoring(f) && n < LINKS && 2 * n < v < VERTS
    ensures NewScore(v, ScoreAt(Mesh(), f, Chain(n), v))
    decreases n
  {
    hide Open, Cached, CalcScoring, NewScore;
    if n == 0 {
      assert Chain(0) == [];
      StartScores(f, v);
    } else {
      assert Chain(n)[..n - 1] == Chain(n - 1);
      ChainCached(n);
      NewScores(f, n - 1, v);
    }
  }

  /** The next link scores more than 4.5. */
  lemma NextLink(f: Scoring, n: nat)
    requires CalcScoring(f) && n < LINKS
    ensures Near(Mesh(), Chain(n), n)
    ensures Above(ScoreOf(Mesh(), f, Chain(n), Mesh()[n]), 4.5)
  {
    hide Open, Cached, ScoreAt, CalcScoring;
    assert !Mesh()[n].Degenerate();
    NewScores(f, n, 2 * n + 1);
    NewScores(f, n, 2 * n + 2);
    if n == 0 {
      assert Chain(0) == [];
      StartScores(f, 0);
    } else {
      ChainCached(n);
      assert Down(2 * n)[0] == 2 * n;
      assert 2 * n in Cached(Mesh(), Chain(n)) && Mesh()[n].Has(2 * n);
      CachedScores(f, n, 2 * n);
    }
  }

  /** The triangles at the hubs score less than that. */
  lemma HubsScoreLess(f: Scoring, n: nat, t: nat)
    requires CalcScoring(f) && n < LINKS <= t < TRIS
    ensures var s := ScoreOf(Mesh(), f, Chain(n), Mesh()[t]); s.Num? && s.r <= 3.7
  {
    hide Open, Cached, ScoreAt, CalcScoring;
    NewScores(f, n, 35);
    NewScores(f, n, 36);
    if Rim(t) <= 2 * n {
      CachedScores(f, n, Rim(t));
    } else {
      NewScores(f, n, Rim(t));
    }
  }

  /** The other links score less at the start. */
  lemma LinksScoreLess(f: Scoring, t: nat)
    requires CalcScoring(f) && 0 < t < LINKS
    ensures var s := ScoreOf(Mesh(), f, Chain(0), Mesh()[t]); s.Num? && s.r <= 4.3
  {
    hide Open, Cached, ScoreAt, CalcScoring;
    NewScores(f, 0, 2 * t);
    NewScores(f, 0, 2 * t + 1);
    NewScores(f, 0, 2 * t + 2);
  }

  /** And later they are not looked at. */
  lemma LinksAreFar(n: nat, t: nat)
    requires 0 < n < LINKS && t < LINKS && t != n
    ensures !Near(Mesh(), Chain(n), t)
  {
    hide Cached;
    ChainCached(n);
    InChain(n, t);
    forall v | v in Down(2 * n)
      ensures t > n ==> !Corners(t).Has(v)
    {
    }
  }

  // ---------- The run ----------

  lemma OnlyChoice(f: Scoring, n: nat, best: nat)
    requires CalcScoring(f) && n < LINKS && Choice(Mesh(), f, Chain(n), best)
    ensures best == n
  {
    hide ScoreOf, CalcScoring, Cached;
    NextLink(f, n);
    assert Near(Mesh(), Chain(n), best) && best < TRIS;
    if best >= LINKS {
      HubsScoreLess(f, n, best);
    } else if best != n && n == 0 {
      LinksScoreLess(f, best);
    } else if best != n {
      LinksAreFar(n, best);
    }
  }

  /** A greedy order follows the chain. */
  lemma {:induction false} FollowsChain(f: Scoring, order: seq<nat>, n: nat)
    requires CalcScoring(f) && Greedy(Mesh(), f, order) && Exhausted(Mesh(), f, order) && n <= LINKS
    ensures n <= |order| && order[..n] == Chain(n)
  {
    hide Choice, Near, ScoreOf, Exhausted, CalcScoring;
    if n > 0 {
      FollowsChain(f, order, n - 1);
      var done := Chain(n - 1);
      NextLink(f, n - 1);
      if |order| == n - 1 {
        assert order[..n - 1] == order;
        NotExhausted(f, order, n - 1);
      } else {
        assert Choice(Mesh(), f, order[..n - 1], order[n - 1]);
        OnlyChoice(f, n - 1, order[n - 1]);
        assert order[..n] == order[..n - 1] + [n - 1] == Chain(n);
      }
    }
  }

  lemma NotExhausted(f: Scoring, order: seq<nat>, n: nat)
    requires Near(Mesh(), order, n) && n < TRIS && Above(ScoreOf(Mesh(), f, order, Mesh()[n]), 4.5)
    ensures !Exhausted(Mesh(), f, order)
  {
  }

  /** Every greedy order of this mesh fills the cache with 34 vertices. */
  lemma ChainOverfull(f: Scoring, order: seq<nat>)
    requires CalcScoring(f) && Greedy(Mesh(), f, order) && Exhausted(Mesh(), f, order)
    ensures Overfull(Mesh(), order)
  {
    hide Greedy, Exhausted, Cached, CalcScoring;
    FollowsChain(f, order, LINKS);
    ChainCached(LINKS);
    assert |Cached(Mesh(), order[..LINKS])| > MAXVCACHE + 1;
  }

  /** The optimiser loses triangles of this mesh, although none of them is degenerate. */
  method LoseTriangles(f: Scoring, mmap: seq<SharedVert>)
    returns (vmap: seq<SharedVert>, triangles: seq<Triangle>, ghost order: seq<nat>)
    requires CalcScoring(f) && |mmap| == VERTS
    ensures order == OrderOf(Mesh(), f)
    ensures Emitted(Mesh(), mmap, [], [], vmap, triangles, order) && |triangles| == |order|
    ensures forall t :: 0 <= t < TRIS ==> Proper(Mesh(), t)
    ensures |triangles| < TRIS
    ensures exists t :: Proper(Mesh(), t) && t !in order
  {
    hide Greedy, Exhausted, Overfull, MapExact, SourceScoring, CalcScoring, OrderOf;
    CalcScoreShape(f);
    assert forall t :: 0 <= t < TRIS ==> Corners(t).a < VERTS && Corners(t).b < VERTS && Corners(t).c < VERTS;
    var tscore;
    ghost var added;
    vmap, triangles, tscore, order, added := MakeTriangles(Mesh(), mmap, f, [], []);
    ChainOverfull(f, order);
    FewerThanAll(order);
  }

  lemma FewerThanAll(order: seq<nat>)
    requires NoDup(order) && !AllEmitted(Mesh(), order) && forall t :: t in order ==> Proper(Mesh(), t)
    ensures |order| < TRIS && exists t :: Proper(Mesh(), t) && t !in order
  {
    var t :| Proper(Mesh(), t) && t !in order;
    NoDupMore(order, t);
    DistinctBelow(order + [t], TRIS);
  }
}
