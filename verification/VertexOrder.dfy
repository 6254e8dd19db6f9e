/**
 * The cache of the vertex-cache optimiser (iqm/iqm.cpp) as the order of the triangles determines it: which
 * vertices are in it, what they score, and which triangle a greedy choice takes next. The score of a vertex
 * is a function of its rank in the cache and the number of its unused triangles, and may be no number.
 */
module VertexOrder {
  datatype Triangle = Triangle(a: nat, b: nat, c: nat) {
    function Corner(k: nat): nat
      requires k < 3
    {
      if k == 0 then a else if k == 1 then b else c
    }

    function With(k: nat, v: nat): Triangle
      requires k < 3
    {
      if k == 0 then Triangle(v, b, c) else if k == 1 then Triangle(a, v, c) else Triangle(a, b, v)
    }

    predicate Degenerate() {
      a == b || b == c || c == a
    }

    predicate Has(v: nat) {
      v == a || v == b || v == c
    }

    predicate HasFrom(k: nat, v: nat) {
      (k <= 0 && v == a) || (k <= 1 && v == b) || (k <= 2 && v == c)
    }
  }

  /** A floating point score; every comparison with NaN is false. */
  datatype Score = Num(r: real) | NaN

  function Add(s: Score, t: Score): Score {
    if s.Num? && t.Num? then Num(s.r + t.r) else NaN
  }

  predicate Above(s: Score, bound: real) {
    s.Num? && s.r > bound
  }

  const FLOOR: real := -10000000000000000.0
  const MAXVCACHE: nat := 32

  type Scoring = (int, nat) -> Score

  function VertexScore(f: Scoring, rank: int, numuses: nat): Score {
    if numuses > 0 then f(rank, numuses) else Num(-1.0)
  }

  ghost predicate NoDup(s: seq<nat>) {
    forall i, j :: 0 <= i < j < |s| ==> s[i] != s[j]
  }

  // ---------- Sequences ----------

  lemma NoDupMore(s: seq<nat>, x: nat)
    requires NoDup(s) && x !in s
    ensures NoDup(s + [x]) && NoDup([x] + s)
  {
  }

  /** list::remove. */
  function Without(s: seq<nat>, x: nat): (r: seq<nat>)
    ensures forall y :: y in r <==> y in s && y != x
  {
    if s == [] then []
    else if s[0] == x then Without(s[1..], x)
    else [s[0]] + Without(s[1..], x)
  }

  lemma {:induction false} WithoutNoDup(s: seq<nat>, x: nat)
    requires NoDup(s)
    ensures NoDup(Without(s, x))
  {
    if s != [] {
      WithoutNoDup(s[1..], x);
      NoDupMore(Without(s[1..], x), s[0]);
    }
  }

  lemma {:induction false} WithoutNothing(s: seq<nat>, x: nat)
    requires x !in s
    ensures Without(s, x) == s
  {
    if s != [] {
      WithoutNothing(s[1..], x);
    }
  }

  lemma FirstIsIn(s: seq<nat>)
    ensures s != [] ==> s[0] in s
  {
  }

  lemma {:induction false} DistinctBelow(s: seq<nat>, n: nat)
    requires NoDup(s) && forall x :: x in s ==> x < n
    ensures |s| <= n
    decreases n
  {
    if n == 0 {
      FirstIsIn(s);
    } else {
      var t := Without(s, n - 1);
      WithoutNoDup(s, n - 1);
      WithoutLength(s, n - 1);
      DistinctBelow(t, n - 1);
    }
  }

  lemma {:induction false} WithoutLength(s: seq<nat>, x: nat)
    requires NoDup(s)
    ensures |Without(s, x)| == |s| - if x in s then 1 else 0
  {
    if s != [] {
      WithoutLength(s[1..], x);
      assert s == [s[0]] + s[1..];
    }
  }

  /** Two lists of the same elements without duplicates have the same length. */
  lemma {:induction false} SameLength(s: seq<nat>, t: seq<nat>)
    requires NoDup(s) && NoDup(t) && forall x :: x in s <==> x in t
    ensures |s| == |t|
    decreases |s|
  {
    if s == [] {
      FirstIsIn(t);
    } else {
      hide Without;
      var x := s[0];
      assert x in s;
      WithoutNoDup(s, x);
      WithoutNoDup(t, x);
      WithoutLength(s, x);
      WithoutLength(t, x);
      SameLength(Without(s, x), Without(t, x));
    }
  }

  // ---------- Scores ----------

  ghost predicate Good(s: Score) {
    s.Num? && 3.0 * s.r > FLOOR
  }

  ghost predicate GoodScoring(f: Scoring) {
    forall rank: int, n: nat :: n > 0 ==> Good(f(rank, n))
  }

  /** The source's scores: numbers up to rank 32, a root of a negative number beyond it. */
  ghost predicate SourceScoring(f: Scoring) {
    && (forall rank: int, n: nat :: n > 0 && rank <= MAXVCACHE ==> Good(f(rank, n)))
    && forall rank: int, n: nat :: n > 0 && rank > MAXVCACHE ==> f(rank, n) == NaN
  }

  /** The power of the number of uses: twice the inverse of its square root. */
  ghost predicate UseTerm(u: real, n: nat) {
    u > 0.0 && u * u * n as real == 4.0
  }

  /** The share of a place in the cache: the power 3/2 of its distance from the end, but less for the front. */
  ghost predicate PlaceTerm(p: real, rank: int)
    requires rank <= MAXVCACHE
  {
    if rank < 3 then p == if rank >= 0 then 0.75 else 0.0
    else
      var x := 1.0 - (rank - 3) as real / (MAXVCACHE - 3) as real;
      p >= 0.0 && p * p == x * x * x
  }

  ghost predicate IsCalcScore(s: Score, rank: int, n: nat) {
    if rank > MAXVCACHE then s == NaN
    else s.Num? && exists u: real, p: real :: UseTerm(u, n) && PlaceTerm(p, rank) && s.r == u + p
  }

  /** calcscore: beyond rank 32 it takes a power of a negative number. */
  ghost predicate CalcScoring(f: Scoring) {
    forall rank: int, n: nat :: n > 0 ==> IsCalcScore(f(rank, n), rank, n)
  }

  lemma CalcScoreShape(f: Scoring)
    requires CalcScoring(f)
    ensures SourceScoring(f)
  {
  }

  // ---------- The cache after a number of triangles ----------

  predicate IsOpen(tris: seq<Triangle>, done: seq<nat>, t: nat) {
    t < |tris| && !tris[t].Degenerate() && t !in done
  }

  /** A triangle at a vertex that is still to come. */
  predicate OpenAt(tris: seq<Triangle>, done: seq<nat>, v: nat, t: nat) {
    IsOpen(tris, done, t) && tris[t].Has(v)
  }

  function OpenBelow(tris: seq<Triangle>, done: seq<nat>, v: nat, n: nat): (r: seq<nat>)
    requires n <= |tris|
    ensures forall t: nat :: t in r <==> t < n && OpenAt(tris, done, v, t)
  {
    if n == 0 then []
    else
      OpenBelow(tris, done, v, n - 1) + if OpenAt(tris, done, v, n - 1) then [n - 1] else []
  }

  /** The triangles at a vertex that are still to come. */
  function Open(tris: seq<Triangle>, done: seq<nat>, v: nat): (r: seq<nat>)
    ensures forall t: nat :: t in r <==> OpenAt(tris, done, v, t)
  {
    OpenBelow(tris, done, v, |tris|)
  }

  lemma {:induction false} OpenDistinct(tris: seq<Triangle>, done: seq<nat>, v: nat, n: nat)
    requires n <= |tris|
    ensures NoDup(OpenBelow(tris, done, v, n))
  {
    if n > 0 {
      OpenDistinct(tris, done, v, n - 1);
      NoDupMore(OpenBelow(tris, done, v, n - 1), n - 1);
    }
  }

  /** A corner of an emitted triangle heads the cache, or leaves it when it has no triangles left. */
  function Touch(tris: seq<Triangle>, done: seq<nat>, cache: seq<nat>, v: nat): seq<nat> {
    (if Open(tris, done, v) != [] then [v] else []) + Without(cache, v)
  }

  function TouchFirst(tris: seq<Triangle>, done: seq<nat>, cache: seq<nat>, tri: Triangle, k: nat): seq<nat>
    requires k <= 3
  {
    if k == 0 then cache else Touch(tris, done, TouchFirst(tris, done, cache, tri, k - 1), tri.Corner(k - 1))
  }

  function Trimmed(cache: seq<nat>): seq<nat> {
    if |cache| > MAXVCACHE then cache[..MAXVCACHE] else cache
  }

  /** The cache after the triangles `done`, before it is cut to its size. */
  function Cached(tris: seq<Triangle>, done: seq<nat>): seq<nat> {
    if done == [] then []
    else
      var n := |done| - 1;
      var cache := Trimmed(Cached(tris, done[..n]));
      if done[n] < |tris| then TouchFirst(tris, done, cache, tris[done[n]], 3) else cache
  }

  function Position(cache: seq<nat>, v: nat): (i: nat)
    requires v in cache
    ensures i < |cache| && cache[i] == v
  {
    if cache[0] == v then 0 else 1 + Position(cache[1..], v)
  }

  /** The score of a vertex: what it was when it was last in the cache, or at the start. */
  function ScoreAt(tris: seq<Triangle>, f: Scoring, done: seq<nat>, v: nat): Score {
    if done == [] then VertexScore(f, -1, |Open(tris, [], v)|)
    else if v in Cached(tris, done) then VertexScore(f, Position(Cached(tris, done), v), |Open(tris, done, v)|)
    else ScoreAt(tris, f, done[..|done| - 1], v)
  }

  function ScoreOf(tris: seq<Triangle>, f: Scoring, done: seq<nat>, tri: Triangle): Score {
    Add(Add(ScoreAt(tris, f, done, tri.a), ScoreAt(tris, f, done, tri.b)), ScoreAt(tris, f, done, tri.c))
  }

  /** A triangle scores the sum of its corners, and no number if one of them has none. */
  lemma ScoreIsSum(tris: seq<Triangle>, f: Scoring, done: seq<nat>, tri: Triangle)
    ensures var a, b, c := ScoreAt(tris, f, done, tri.a), ScoreAt(tris, f, done, tri.b), ScoreAt(tris, f, done, tri.c);
            ScoreOf(tris, f, done, tri) == if a.NaN? || b.NaN? || c.NaN? then NaN else Num(a.r + b.r + c.r)
  {
    hide ScoreAt;
  }

  /** The triangles that are looked at first: those with a vertex in the cache, at the start all. */
  predicate Near(tris: seq<Triangle>, done: seq<nat>, t: nat) {
    && IsOpen(tris, done, t)
    && (done == [] || exists v :: v in Cached(tris, done) && tris[t].Has(v))
  }

  /** `best` is a near triangle with the highest score, if any near triangle has a score above the floor. */
  ghost predicate Choice(tris: seq<Triangle>, f: Scoring, done: seq<nat>, best: nat) {
    forall t: nat :: Near(tris, done, t) && Above(ScoreOf(tris, f, done, tris[t]), FLOOR) ==>
      && Near(tris, done, best) && Above(ScoreOf(tris, f, done, tris[best]), FLOOR)
      && !Above(ScoreOf(tris, f, done, tris[t]), ScoreOf(tris, f, done, tris[best]).r)
  }

  // ---------- The order that the scores determine ----------

  /** vertexcache::removeuse: the last use takes the place of the one that goes. */
  function Removed(uses: seq<nat>, t: nat): seq<nat> {
    if t in uses then uses[Position(uses, t) := uses[|uses| - 1]][..|uses| - 1] else uses
  }

  /** The last use stands where the one was that went, and the others stay where they are. */
  lemma RemovedUse(uses: seq<nat>, t: nat)
    requires NoDup(uses) && t in uses
    ensures var r, n := Removed(uses, t), |uses| - 1;
            |r| == n && forall i :: 0 <= i < n ==> r[i] == if uses[i] == t then uses[n] else uses[i]
  {
  }

  /** The triangles at a vertex from triangle `i` on. */
  function ListFrom(tris: seq<Triangle>, v: nat, i: nat): seq<nat>
    decreases |tris| - i
  {
    if i >= |tris| then [] else (if OpenAt(tris, [], v, i) then [i] else []) + ListFrom(tris, v, i + 1)
  }

  /** The use list of a vertex. */
  function UsesAt(tris: seq<Triangle>, done: seq<nat>, v: nat): seq<nat> {
    if done == [] then ListFrom(tris, v, 0)
    else
      var n := |done| - 1;
      var uses := UsesAt(tris, done[..n], v);
      if done[n] < |tris| && tris[done[n]].Has(v) then Removed(uses, done[n]) else uses
  }

  function UsesOfAll(tris: seq<Triangle>, done: seq<nat>, cache: seq<nat>): seq<nat> {
    if cache == [] then []
    else UsesOfAll(tris, done, cache[..|cache| - 1]) + UsesAt(tris, done, cache[|cache| - 1])
  }

  /** The triangles below `n` that are still to come. */
  function OpenTo(tris: seq<Triangle>, done: seq<nat>, n: nat): seq<nat> {
    if n == 0 then [] else OpenTo(tris, done, n - 1) + if IsOpen(tris, done, n - 1) then [n - 1] else []
  }

  /** The triangles that are scored and looked at first, in their order. */
  function LookedAt(tris: seq<Triangle>, done: seq<nat>): seq<nat> {
    if done == [] then OpenTo(tris, [], |tris|) else UsesOfAll(tris, done, Cached(tris, done))
  }

  /** The score of a triangle: what it was when it was last looked at first. */
  function TriScoreAt(tris: seq<Triangle>, f: Scoring, done: seq<nat>, t: nat): Score
    requires t < |tris|
  {
    if done == [] || t in LookedAt(tris, done) then ScoreOf(tris, f, done, tris[t])
    else TriScoreAt(tris, f, done[..|done| - 1], t)
  }

  function Scores(tris: seq<Triangle>, f: Scoring, done: seq<nat>): (s: seq<Score>)
    ensures |s| == |tris| && forall t :: 0 <= t < |tris| ==> s[t] == TriScoreAt(tris, f, done, t)
  {
    seq(|tris|, t requires 0 <= t < |tris| => TriScoreAt(tris, f, done, t))
  }

  function Bar(best: int, score: seq<Score>): real {
    if 0 <= best < |score| && score[best].Num? then score[best].r else FLOOR
  }

  /** The first of the highest scores, -1 if none is above the floor. */
  function FirstMax(score: seq<Score>, seen: seq<nat>): int {
    if seen == [] then -1
    else
      var n := |seen| - 1;
      var best := FirstMax(score, seen[..n]);
      if seen[n] < |score| && Above(score[seen[n]], Bar(best, score)) then seen[n] else best
  }

  /** Of numbers above -1e16 the first that no other exceeds, or none when there is no such number. */
  lemma {:induction false} FirstMaxIsFirst(score: seq<Score>, seen: seq<nat>)
    requires forall i :: 0 <= i < |seen| ==> seen[i] < |score|
    ensures var best := FirstMax(score, seen);
            if best < 0 then
              best == -1 && forall t :: t in seen && score[t].Num? ==> score[t].r <= -10000000000000000.0
            else
              && best in seen && score[best].Num? && score[best].r > -10000000000000000.0
              && (forall t :: t in seen && score[t].Num? ==> score[t].r <= score[best].r)
              && exists k :: 0 <= k < |seen| && seen[k] == best
                             && forall j :: 0 <= j < k && score[seen[j]].Num? ==> score[seen[j]].r < score[best].r
    decreases |seen|
  {
    if seen != [] {
      var n := |seen| - 1;
      var front, last := seen[..n], seen[n];
      assert forall t :: t in seen <==> t in front || t == last;
      FirstMaxIsFirst(score, front);
      var was, best := FirstMax(score, front), FirstMax(score, seen);
      if best != was {
        assert best == last && seen[n] == best && forall j :: 0 <= j < n ==> seen[j] in front;
      } else if best >= 0 {
        var k :| 0 <= k < |front| && front[k] == best
                 && forall j :: 0 <= j < k && score[front[j]].Num? ==> score[front[j]].r < score[best].r;
        assert seen[k] == best && forall j :: 0 <= j < k ==> seen[j] == front[j];
      }
    }
  }

  /** The triangle that follows: from the cache, or else from all that are left. */
  function NextOf(tris: seq<Triangle>, f: Scoring, done: seq<nat>): int {
    var best := FirstMax(Scores(tris, f, done), LookedAt(tris, done));
    if best >= 0 || done == [] then best else FirstMax(Scores(tris, f, done), OpenTo(tris, done, |tris|))
  }

  function OrderFrom(tris: seq<Triangle>, f: Scoring, done: seq<nat>, left: nat): seq<nat>
    decreases left
  {
    var next := NextOf(tris, f, done);
    if left == 0 || next < 0 then done else OrderFrom(tris, f, done + [next], left - 1)
  }

  /** The order in which the triangles are emitted, from the mesh and the scoring alone. */
  function OrderOf(tris: seq<Triangle>, f: Scoring): seq<nat> {
    OrderFrom(tris, f, [], |tris|)
  }

  ghost predicate Follows(tris: seq<Triangle>, f: Scoring, order: seq<nat>) {
    forall i :: 0 <= i < |order| ==> order[i] == NextOf(tris, f, order[..i])
  }

  lemma FollowsMore(tris: seq<Triangle>, f: Scoring, order: seq<nat>, best: nat)
    requires Follows(tris, f, order) && best == NextOf(tris, f, order)
    ensures Follows(tris, f, order + [best])
  {
    hide NextOf;
    var more := order + [best];
    forall i | 0 <= i < |more|
      ensures more[i] == NextOf(tris, f, more[..i])
    {
      assert more[..i] == if i < |order| then order[..i] else order;
    }
  }

  lemma {:induction false} FollowedOrder(tris: seq<Triangle>, f: Scoring, order: seq<nat>, i: nat)
    requires Follows(tris, f, order) && NextOf(tris, f, order) < 0 && i <= |order| <= |tris|
    ensures OrderFrom(tris, f, order[..i], |tris| - i) == order
    decreases |order| - i
  {
    hide NextOf;
    if i < |order| {
      assert order[..i] + [order[i]] == order[..i + 1];
      FollowedOrder(tris, f, order, i + 1);
    } else {
      assert order[..i] == order;
    }
  }

  lemma {:induction false} PositionIs(s: seq<nat>, i: nat)
    requires i < |s| && s[i] !in s[..i]
    ensures s[i] in s && Position(s, s[i]) == i
  {
    if i > 0 {
      assert s[0] == s[..i][0];
      assert s[1..][..i - 1] == s[..i][1..];
      PositionIs(s[1..], i - 1);
    }
  }

  /** Only the scores of the triangles that are looked at matter. */
  lemma {:induction false} FirstMaxAgrees(a: seq<Score>, b: seq<Score>, seen: seq<nat>)
    requires |a| == |b| && forall t :: t in seen ==> t < |a| && a[t] == b[t]
    ensures FirstMax(a, seen) == FirstMax(b, seen)
    ensures FirstMax(a, seen) == -1 || (FirstMax(a, seen) >= 0 && FirstMax(a, seen) in seen)
    decreases |seen|
  {
    if seen != [] {
      var front := seen[..|seen| - 1];
      assert forall t :: t in front ==> t in seen;
      FirstMaxAgrees(a, b, front);
    }
  }

  /** Each triangle of the order is chosen greedily. */
  ghost predicate Greedy(tris: seq<Triangle>, f: Scoring, order: seq<nat>) {
    forall i :: 0 <= i < |order| ==> Choice(tris, f, order[..i], order[i])
  }

  /** No near triangle is left that could be chosen. */
  ghost predicate Exhausted(tris: seq<Triangle>, f: Scoring, order: seq<nat>) {
    forall t: nat :: Near(tris, order, t) ==> !Above(ScoreOf(tris, f, order, tris[t]), FLOOR)
  }

  /** At some time the cache held a vertex beyond rank 32 when it was scored. */
  ghost predicate Overfull(tris: seq<Triangle>, order: seq<nat>) {
    exists i :: 0 <= i <= |order| && |Cached(tris, order[..i])| > MAXVCACHE + 1
  }

  lemma OverfullMore(tris: seq<Triangle>, order: seq<nat>, best: nat)
    ensures var more := order + [best];
            Overfull(tris, more) <==> Overfull(tris, order) || |Cached(tris, more)| > MAXVCACHE + 1
  {
    hide Cached;
    var more := order + [best];
    assert more[..|more|] == more;
    if Overfull(tris, order) {
      var i :| 0 <= i <= |order| && |Cached(tris, order[..i])| > MAXVCACHE + 1;
      assert more[..i] == order[..i];
    }
    if Overfull(tris, more) && |Cached(tris, more)| <= MAXVCACHE + 1 {
      var i :| 0 <= i <= |more| && |Cached(tris, more[..i])| > MAXVCACHE + 1;
      assert i < |more| && more[..i] == order[..i];
    }
  }

  lemma GreedyMore(tris: seq<Triangle>, f: Scoring, order: seq<nat>, best: nat)
    requires Greedy(tris, f, order) && Choice(tris, f, order, best)
    ensures Greedy(tris, f, order + [best])
  {
    hide Choice;
    var more := order + [best];
    forall i | 0 <= i < |more|
      ensures Choice(tris, f, more[..i], more[i])
    {
      assert more[..i] == if i < |order| then order[..i] else order;
    }
  }

  /** A vertex in the cache has triangles left. */
  lemma {:induction false} CachedAreOpen(tris: seq<Triangle>, done: seq<nat>, v: nat)
    requires (forall t :: t in done ==> t < |tris|) && v in Cached(tris, done)
    ensures Open(tris, done, v) != []
    decreases |done|
  {
    hide Open, Without;
    var n := |done| - 1;
    assert done[n] in done && forall t :: t in done[..n] ==> t in done;
    var front, tri := done[..n], tris[done[n]];
    var cache := Trimmed(Cached(tris, front));
    TouchedMembers(tris, done, cache, tri, v);
    if !tri.Has(v) {
      TrimmedMembers(Cached(tris, front));
      CachedAreOpen(tris, front, v);
      assert Open(tris, front, v)[0] in Open(tris, front, v);
      assert done == front + [done[n]];
      assert Open(tris, front, v)[0] in Open(tris, done, v);
    }
  }

  lemma TrimmedMembers(cache: seq<nat>)
    ensures forall v :: v in Trimmed(cache) ==> v in cache
    ensures NoDup(cache) ==> NoDup(Trimmed(cache))
  {
  }

  lemma TouchedInTurn(tris: seq<Triangle>, done: seq<nat>, cache: seq<nat>, tri: Triangle)
    ensures TouchFirst(tris, done, cache, tri, 3)
            == Touch(tris, done, Touch(tris, done, Touch(tris, done, cache, tri.a), tri.b), tri.c)
  {
    hide Touch;
    assert TouchFirst(tris, done, cache, tri, 0) == cache;
    assert TouchFirst(tris, done, cache, tri, 1) == Touch(tris, done, cache, tri.a);
    assert TouchFirst(tris, done, cache, tri, 2) == Touch(tris, done, TouchFirst(tris, done, cache, tri, 1), tri.b);
  }

  /** Who is in the cache after the corners of a triangle were touched. */
  lemma TouchedMembers(tris: seq<Triangle>, done: seq<nat>, cache: seq<nat>, tri: Triangle, v: nat)
    ensures v in TouchFirst(tris, done, cache, tri, 3)
            <==> if tri.Has(v) then Open(tris, done, v) != [] else v in cache
  {
    hide Open, Without;
    TouchedInTurn(tris, done, cache, tri);
  }

  /** The cache holds distinct corners of triangles. */
  lemma {:induction false} CachedDistinct(tris: seq<Triangle>, done: seq<nat>, n: nat)
    requires forall t :: 0 <= t < |tris| ==> tris[t].a < n && tris[t].b < n && tris[t].c < n
    ensures NoDup(Cached(tris, done)) && forall v :: v in Cached(tris, done) ==> v < n
    decreases |done|
  {
    hide Open, Touch;
    if done != [] {
      var k := |done| - 1;
      CachedDistinct(tris, done[..k], n);
      TrimmedMembers(Cached(tris, done[..k]));
      if done[k] < |tris| {
        var cache, tri := Trimmed(Cached(tris, done[..k])), tris[done[k]];
        var c1 := Touch(tris, done, cache, tri.a);
        var c2 := Touch(tris, done, c1, tri.b);
        TrimmedMembers(Cached(tris, done[..k]));
        TouchedInTurn(tris, done, cache, tri);
        TouchDistinct(tris, done, cache, tri.a, n);
        TouchDistinct(tris, done, c1, tri.b, n);
        TouchDistinct(tris, done, c2, tri.c, n);
      }
    }
  }

  lemma TouchDistinct(tris: seq<Triangle>, done: seq<nat>, cache: seq<nat>, v: nat, n: nat)
    requires NoDup(cache) && (forall w :: w in cache ==> w < n) && v < n
    ensures var c := Touch(tris, done, cache, v); NoDup(c) && forall w :: w in c ==> w < n
  {
    hide Open, Without;
    WithoutNoDup(cache, v);
    NoDupMore(Without(cache, v), v);
    assert [] + Without(cache, v) == Without(cache, v);
  }

  /** A mesh of 33 vertices cannot fill the cache too far. */
  lemma SmallNeverOverfull(tris: seq<Triangle>, order: seq<nat>, n: nat)
    requires (forall t :: 0 <= t < |tris| ==> tris[t].a < n && tris[t].b < n && tris[t].c < n) && n <= MAXVCACHE + 1
    ensures !Overfull(tris, order)
  {
    hide Cached;
    forall i | 0 <= i <= |order|
      ensures |Cached(tris, order[..i])| <= MAXVCACHE + 1
    {
      CachedDistinct(tris, order[..i], n);
      DistinctBelow(Cached(tris, order[..i]), n);
    }
  }
}
