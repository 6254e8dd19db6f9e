/**
 * The vertex-cache optimiser (iqm/iqm.cpp): maketriangles emits the triangles of a mesh in an order that
 * suits a cache of 32 vertices, numbering the vertices as they are first used. The score of a vertex is an
 * arbitrary function of its rank in the cache and the number of its unused triangles, and may be no number.
 */
module VertexCache {
  import opened VertexOrder

  datatype SharedVert = SharedVert(index: int, weld: int)

  /** `uses` is the seq of the unused triangles at this vertex, `rank` is negative outside the cache. */
  datatype Vertex = Vertex(index: int, rank: int, score: Score, uses: seq<nat>)

  // ---------- Sequences ----------

  /** vertexcache::removeuse: the last use takes the place of the one that goes. */
  method RemoveUse(uses: seq<nat>, t: nat) returns (r: seq<nat>)
    requires NoDup(uses)
    ensures r == Removed(uses, t)
    ensures NoDup(r) && forall x :: x in r <==> x in uses && x != t
    ensures t in uses ==> |r| == |uses| - 1
  {
    for i := 0 to |uses|
      invariant t !in uses[..i]
    {
      if uses[i] == t {
        var last := |uses| - 1;
        r := uses[i := uses[last]][..last];
        RemovedUse(uses, i, r);
        PositionIs(uses, i);
        return;
      }
    }
    assert uses[..|uses|] == uses;
    return uses;
  }

  lemma RemovedUse(uses: seq<nat>, i: nat, r: seq<nat>)
    requires NoDup(uses) && i < |uses| && r == uses[i := uses[|uses| - 1]][..|uses| - 1]
    ensures NoDup(r) && forall x :: x in r <==> x in uses && x != uses[i]
  {
    forall x | x in uses && x != uses[i]
      ensures x in r
    {
      var j :| 0 <= j < |uses| && uses[j] == x;
      assert r[if j == |uses| - 1 then i else j] == x;
    }
  }

  // ---------- What holds between two triangles ----------

  ghost predicate ValidTris(tris: seq<Triangle>, n: nat) {
    forall t :: 0 <= t < |tris| ==> tris[t].a < n && tris[t].b < n && tris[t].c < n
  }

  /** Triangle `best` has been taken out of the use lists of its first `k` corners only. */
  ghost predicate UsesOk(tris: seq<Triangle>, used: seq<bool>, verts: seq<Vertex>, best: int, k: nat) {
    && |used| == |tris|
    && forall v :: 0 <= v < |verts| ==>
         && NoDup(verts[v].uses)
         && forall t :: t in verts[v].uses <==> InUse(tris, used, best, k, t, v)
  }

  ghost predicate InUse(tris: seq<Triangle>, used: seq<bool>, best: int, k: nat, t: nat, v: nat)
    requires |used| == |tris|
  {
    t < |tris| && if used[t] then t == best && tris[t].HasFrom(k, v) else tris[t].Has(v)
  }

  ghost predicate CacheOk(verts: seq<Vertex>, cache: seq<nat>) {
    && NoDup(cache)
    && (forall i :: 0 <= i < |cache| ==> cache[i] < |verts|)
    && forall v :: 0 <= v < |verts| ==> (verts[v].rank >= 0 <==> v in cache)
  }

  /** Which vertices have been numbered, and in what order, after the `base` that vmap held before. */
  ghost predicate VmapOk(verts: seq<Vertex>, mmap: seq<SharedVert>, vmap: seq<SharedVert>, base: nat, added: seq<nat>) {
    && |verts| == |mmap| && |vmap| == base + |added|
    && (forall j :: 0 <= j < |added| ==>
          added[j] < |verts| && verts[added[j]].index == base + j && vmap[base + j] == mmap[added[j]])
    && forall v :: 0 <= v < |verts| && verts[v].index >= 0 ==>
         base <= verts[v].index < |vmap| && added[verts[v].index - base] == v
  }

  ghost predicate OrderOk(tris: seq<Triangle>, used: seq<bool>, order: seq<nat>) {
    && |used| == |tris| && NoDup(order)
    && (forall t :: t in order <==> Drawn(tris, used, t))
    && forall t :: 0 <= t < |tris| && tris[t].Degenerate() ==> used[t]
  }

  predicate Drawn(tris: seq<Triangle>, used: seq<bool>, t: nat)
    requires |used| == |tris|
  {
    t < |tris| && used[t] && !tris[t].Degenerate()
  }

  /** The corners of `tri` have been given the numbers in `out`, as far as corner `k`. */
  ghost predicate CornersOk(tri: Triangle, verts: seq<Vertex>, out: Triangle, k: nat)
    requires k <= 3
  {
    forall j :: 0 <= j < k ==> tri.Corner(j) < |verts| && verts[tri.Corner(j)].index == out.Corner(j)
  }

  ghost predicate OutOk(tris: seq<Triangle>, verts: seq<Vertex>, out: seq<Triangle>, base: nat, order: seq<nat>) {
    && |out| == base + |order|
    && forall i :: 0 <= i < |order| ==> order[i] < |tris| && CornersOk(tris[order[i]], verts, out[base + i], 3)
  }

  /** Only vertices of emitted triangles are numbered. */
  ghost predicate AddedOk(tris: seq<Triangle>, added: seq<nat>, order: seq<nat>) {
    forall v :: v in added ==> exists t :: t in order && t < |tris| && tris[t].Has(v)
  }

  ghost predicate ScoresOk(used: seq<bool>, verts: seq<Vertex>, tscore: seq<Score>)
    requires |used| == |tscore|
  {
    && (forall v :: 0 <= v < |verts| ==> Good(verts[v].score))
    && forall t :: 0 <= t < |used| && !used[t] ==> Above(tscore[t], FLOOR)
  }

  /** The scores of the vertices are those that the order of the triangles determines. */
  ghost predicate ScoresTracked(tris: seq<Triangle>, f: Scoring, verts: seq<Vertex>, order: seq<nat>) {
    forall v :: 0 <= v < |verts| ==> verts[v].score == ScoreAt(tris, f, order, v)
  }

  /** So are the use lists, and the scores of the triangles that are left. */
  ghost predicate UsesTracked(tris: seq<Triangle>, verts: seq<Vertex>, order: seq<nat>) {
    forall v :: 0 <= v < |verts| ==> verts[v].uses == UsesAt(tris, order, v)
  }

  ghost predicate TrisTracked(tris: seq<Triangle>, f: Scoring, used: seq<bool>, tscore: seq<Score>, order: seq<nat>) {
    && |used| == |tscore| == |tris|
    && forall t :: 0 <= t < |tris| && !used[t] ==> tscore[t] == TriScoreAt(tris, f, order, t)
  }

  /**
   * A vertex that left the cache without a score, and whose triangles have none either: none of them can be
   * chosen, so it never comes back into the cache, and they stay without a score for ever.
   */
  ghost predicate Stuck(verts: seq<Vertex>, cache: seq<nat>, tscore: seq<Score>, v: int) {
    && 0 <= v < |verts| && v !in cache && verts[v].score == NaN && verts[v].uses != []
    && forall t :: t in verts[v].uses ==> t < |tscore| && tscore[t] == NaN
  }

  /** All scores are numbers above the floor, or a vertex is stuck. */
  ghost predicate Outlook(f: Scoring, used: seq<bool>, verts: seq<Vertex>, cache: seq<nat>, tscore: seq<Score>,
                          stuck: int)
    requires |used| == |tscore|
  {
    && (GoodScoring(f) ==> ScoresOk(used, verts, tscore))
    && (SourceScoring(f) ==> if stuck < 0 then ScoresOk(used, verts, tscore) else Stuck(verts, cache, tscore, stuck))
  }

  ghost predicate SameUses(was: seq<Vertex>, now: seq<Vertex>) {
    |was| == |now| && forall v :: 0 <= v < |was| ==> now[v].uses == was[v].uses
  }

  ghost predicate SameIndex(was: seq<Vertex>, now: seq<Vertex>) {
    |was| == |now| && forall v :: 0 <= v < |was| ==> now[v].index == was[v].index
  }

  ghost predicate SameRank(was: seq<Vertex>, now: seq<Vertex>) {
    |was| == |now| && forall v :: 0 <= v < |was| ==> now[v].rank == was[v].rank
  }

  ghost predicate SameScore(was: seq<Vertex>, now: seq<Vertex>) {
    |was| == |now| && forall v :: 0 <= v < |was| ==> now[v].score == was[v].score
  }

  /** A vertex keeps its number. */
  ghost predicate Numbered(was: seq<Vertex>, now: seq<Vertex>) {
    |was| == |now| && forall v :: 0 <= v < |was| && was[v].index >= 0 ==> now[v].index == was[v].index
  }

  lemma UsesKept(tris: seq<Triangle>, used: seq<bool>, was: seq<Vertex>, now: seq<Vertex>, best: int, k: nat)
    requires UsesOk(tris, used, was, best, k) && SameUses(was, now)
    ensures UsesOk(tris, used, now, best, k)
  {
  }

  lemma CacheKept(was: seq<Vertex>, now: seq<Vertex>, cache: seq<nat>)
    requires CacheOk(was, cache) && SameRank(was, now)
    ensures CacheOk(now, cache)
  {
  }

  lemma VmapKept(was: seq<Vertex>, now: seq<Vertex>, mmap: seq<SharedVert>, vmap: seq<SharedVert>, base: nat,
                 added: seq<nat>)
    requires VmapOk(was, mmap, vmap, base, added) && SameIndex(was, now)
    ensures VmapOk(now, mmap, vmap, base, added)
  {
  }

  /** A vertex that has no number gets the next one. */
  lemma NumberVertex(verts: seq<Vertex>, mmap: seq<SharedVert>, vmap: seq<SharedVert>, base: nat, added: seq<nat>,
                     v: nat)
    requires VmapOk(verts, mmap, vmap, base, added) && v < |verts| && verts[v].index < 0
    ensures VmapOk(verts[v := verts[v].(index := |vmap|)], mmap, vmap + [mmap[v]], base, added + [v])
  {
  }

  /** Triangle `best` leaves the use list of its next corner. */
  lemma CornerUnused(tris: seq<Triangle>, used: seq<bool>, verts: seq<Vertex>, best: nat, k: nat, uses: seq<nat>)
    requires k < 3 && best < |tris| && !tris[best].Degenerate() && UsesOk(tris, used, verts, best, k) && used[best]
    requires tris[best].Corner(k) < |verts| && NoDup(uses)
    requires forall x :: x in uses <==> x in verts[tris[best].Corner(k)].uses && x != best
    ensures var v := tris[best].Corner(k);
            UsesOk(tris, used, verts[v := verts[v].(uses := uses)], best, k + 1)
  {
    var v := tris[best].Corner(k);
    var now := verts[v := verts[v].(uses := uses)];
    forall w | 0 <= w < |now|
      ensures NoDup(now[w].uses) && forall t :: t in now[w].uses <==> InUse(tris, used, best, k + 1, t, w)
    {
      forall t: nat
        ensures t in now[w].uses <==> InUse(tris, used, best, k + 1, t, w)
      {
        assert t in verts[w].uses <==> InUse(tris, used, best, k, t, w);
      }
    }
  }

  /** The vertex leaves the cache if it was there, and heads it if it still has uses. */
  lemma CacheMoved(verts: seq<Vertex>, cache: seq<nat>, v: nat)
    requires CacheOk(verts, cache) && v < |verts|
    ensures CacheOk(verts[v := verts[v].(rank := -1)], Without(cache, v))
    ensures CacheOk(verts[v := verts[v].(rank := 0)], [v] + Without(cache, v))
    ensures verts[v].rank < 0 ==> Without(cache, v) == cache
  {
    hide Without;
    WithoutNoDup(cache, v);
    NoDupMore(Without(cache, v), v);
    var rest := Without(cache, v);
    forall i | 0 <= i < |rest|
      ensures rest[i] < |verts|
    {
      assert rest[i] in rest;
    }
    if verts[v].rank < 0 {
      WithoutNothing(cache, v);
    }
  }

  /** What is emitted after everything: each triangle that is not degenerate once, corner by corner. */
  ghost predicate Emitted(tris: seq<Triangle>, mmap: seq<SharedVert>, vmap0: seq<SharedVert>, out0: seq<Triangle>,
                          vmap: seq<SharedVert>, out: seq<Triangle>, order: seq<nat>) {
    && vmap0 <= vmap && out0 <= out && |out| == |out0| + |order| && NoDup(order)
    && forall i :: 0 <= i < |order| ==>
         order[i] < |tris| && EmittedAs(tris[order[i]], mmap, |vmap0|, vmap, out[|out0| + i])
  }

  ghost predicate EmittedAs(tri: Triangle, mmap: seq<SharedVert>, base: nat, vmap: seq<SharedVert>, out: Triangle) {
    && !tri.Degenerate()
    && forall k :: 0 <= k < 3 ==>
         base <= out.Corner(k) < |vmap| && tri.Corner(k) < |mmap| && vmap[out.Corner(k)] == mmap[tri.Corner(k)]
  }

  // ---------- One corner ----------

  class Optimiser {
    const tris: seq<Triangle>
    const mmap: seq<SharedVert>
    const scoring: Scoring
    var used: seq<bool>
    var tscore: seq<Score>
    var verts: seq<Vertex>
    var cache: seq<nat>
    var vmap: seq<SharedVert>
    var triangles: seq<Triangle>
    ghost const vmap0: seq<SharedVert>
    ghost const triangles0: seq<Triangle>
    ghost var order: seq<nat>
    ghost var added: seq<nat>
    ghost var stuck: int  // a vertex whose triangles are lost, -1 while there is none

    /** Everything but the use lists and the scores. */
    ghost predicate Sound()
      reads this
    {
      && ValidTris(tris, |verts|) && |tscore| == |used| == |tris| && vmap0 <= vmap && triangles0 <= triangles
      && CacheOk(verts, cache) && VmapOk(verts, mmap, vmap, |vmap0|, added)
      && OrderOk(tris, used, order) && OutOk(tris, verts, triangles, |triangles0|, order)
      && AddedOk(tris, added, order)
    }

    ghost predicate Valid()
      reads this
    {
      && Sound() && UsesOk(tris, used, verts, -1, 0)
      && cache == Trimmed(Cached(tris, order)) && ScoresTracked(tris, scoring, verts, order)
      && UsesTracked(tris, verts, order) && TrisTracked(tris, scoring, used, tscore, order)
      && Follows(tris, scoring, order)
      && Greedy(tris, scoring, order) && (stuck >= 0 <==> Overfull(tris, order))
      && Outlook(scoring, used, verts, cache, tscore, stuck)
    }

    /** The triangle to emit next: the best choice, if there is one. */
    ghost predicate Chosen(next: int)
      requires Sound()
      reads this
    {
      && next == NextOf(tris, scoring, order)
      && if next < 0 then Best(-1, tscore, Unused(used)) && Exhausted(tris, scoring, order)
         else IsUnused(used, next) && Above(tscore[next], FLOOR) && Choice(tris, scoring, order, next)
    }

    /** A vertex that is used for the first time joins the vertex map. */
    method AddVertex(v: nat)
      requires v < |verts| == |mmap| && VmapOk(verts, mmap, vmap, |vmap0|, added)
      modifies this`verts, this`vmap, this`added
      ensures |verts| == |old(verts)| && verts == old(verts)[v := old(verts)[v].(index := verts[v].index)]
      ensures Numbered(old(verts), verts)
      ensures VmapOk(verts, mmap, vmap, |vmap0|, added) && old(vmap) <= vmap
      ensures added == old(added) || added == old(added) + [v]
      ensures verts[v].index >= 0
    {
      hide VmapOk;
      if verts[v].index < 0 {
        NumberVertex(verts, mmap, vmap, |vmap0|, added, v);
        verts := verts[v := verts[v].(index := |vmap|)];
        vmap := vmap + [mmap[v]];
        added := added + [v];
      }
    }

    /** The vertex moves to the front of the cache, or leaves it when it has no uses left. */
    method MoveToFront(v: nat)
      requires v < |verts| && CacheOk(verts, cache)
      modifies this`verts, this`cache
      ensures |verts| == |old(verts)| && verts == old(verts)[v := old(verts)[v].(rank := verts[v].rank)]
      ensures CacheOk(verts, cache)
      ensures cache == (if verts[v].uses != [] then [v] else []) + Without(old(cache), v)
    {
      hide CacheOk, Without;
      CacheMoved(verts, cache, v);
      ghost var was, old_cache := verts, cache;
      if verts[v].rank >= 0 {
        cache := Without(cache, v);
        verts := verts[v := verts[v].(rank := -1)];
      }
      assert cache == Without(old_cache, v);
      if |verts[v].uses| > 0 {
        cache := [v] + cache;
        verts := verts[v := verts[v].(rank := 0)];
        assert verts == was[v := was[v].(rank := 0)];
      } else {
        assert [] + cache == cache;
      }
    }

    /** The body of the loop over the corners of the triangle that is emitted. */
    method EmitCorner(best: nat, k: nat)
      requires k < 3 && best < |tris| && |used| == |tris| && used[best] && !tris[best].Degenerate()
      requires ValidTris(tris, |verts|) && UsesOk(tris, used, verts, best, k)
      requires CacheOk(verts, cache) && |verts| == |mmap| && VmapOk(verts, mmap, vmap, |vmap0|, added)
      requires triangles != [] && CornersOk(tris[best], verts, triangles[|triangles| - 1], k)
      modifies this`verts, this`cache, this`vmap, this`added, this`triangles
      ensures UsesOk(tris, used, verts, best, k + 1)
      ensures CacheOk(verts, cache) && VmapOk(verts, mmap, vmap, |vmap0|, added) && old(vmap) <= vmap
      ensures |triangles| == |old(triangles)| && triangles[..|triangles| - 1] == old(triangles)[..|triangles| - 1]
      ensures CornersOk(tris[best], verts, triangles[|triangles| - 1], k + 1)
      ensures |verts| == |old(verts)| && Numbered(old(verts), verts) && SameScore(old(verts), verts)
      ensures added == old(added) || added == old(added) + [tris[best].Corner(k)]
      ensures var v := tris[best].Corner(k);
              && cache == (if verts[v].uses != [] then [v] else []) + Without(old(cache), v)
              && forall w :: 0 <= w < |verts| ==>
                   verts[w].uses == if w == v then Removed(old(verts)[w].uses, best) else old(verts)[w].uses
    {
      hide UsesOk, CacheOk, VmapOk, Without, NoDup, Removed;
      var v := tris[best].Corner(k);
      var last := |triangles| - 1;
      ghost var was := verts;
      AddVertex(v);
      triangles := triangles[last := triangles[last].With(k, verts[v].index)];
      assert CornersOk(tris[best], verts, triangles[last], k + 1);
      UsesKept(tris, used, was, verts, best, k);
      CacheKept(was, verts, cache);
      ghost var numbered := verts;
      UsesAreDistinct(tris, used, verts, best, k, v);
      var uses := RemoveUse(verts[v].uses, best);
      CornerUnused(tris, used, verts, best, k, uses);
      verts := verts[v := verts[v].(uses := uses)];
      CacheKept(numbered, verts, cache);
      ghost var unused := verts;
      MoveToFront(v);
      UsesKept(tris, used, unused, verts, best, k + 1);
      VmapKept(numbered, verts, mmap, vmap, |vmap0|, added);
    }

    /** The triangle is emitted. */
    method EmitTriangle(best: nat)
      requires Sound() && UsesOk(tris, used, verts, -1, 0) && best < |tris| && !used[best]
      requires cache == Trimmed(Cached(tris, order))
      modifies this
      ensures Sound() && UsesOk(tris, used, verts, -1, 0) && stuck == old(stuck)
      ensures used == old(used)[best := true] && tscore == old(tscore) && SameScore(old(verts), verts)
      ensures order == old(order) + [best] && cache == Cached(tris, order)
      ensures Unlisted(tris[best], best, 3, old(verts), verts)
    {
      hide UsesOk, CacheOk, VmapOk, OrderOk, OutOk, AddedOk, CornersOk, Numbered, SameScore, Cached, Trimmed,
           TouchFirst, Unlisted;
      ghost var cached := cache;
      assert |verts| == |mmap| by { SizesAgree(verts, mmap, vmap, |vmap0|, added); }
      ghost var was, out, done := verts, triangles, added;
      DrawnNext(tris, used, order, best);
      StartCorners(tris, used, verts, best);
      used := used[best := true];
      order := order + [best];
      triangles := triangles + [Triangle(0, 0, 0)];
      NoCorners(tris[best], verts, triangles[|out|]);
      assert triangles[..|out|] == out;
      NothingNumbered(verts);
      AddedLater(tris, added, old(order), best);
      NothingUnlisted(tris[best], best, verts);
      assert cache == TouchFirst(tris, order, cached, tris[best], 0) by {
        NoneTouched(tris, order, cached, tris[best]);
      }
      for k := 0 to 3
        invariant used == old(used)[best := true] && order == old(order) + [best] && tscore == old(tscore)
        invariant |verts| == |was| == |mmap| && UsesOk(tris, used, verts, best, k)
        invariant CacheOk(verts, cache) && VmapOk(verts, mmap, vmap, |vmap0|, added) && vmap0 <= vmap
        invariant |triangles| == |out| + 1 && triangles[..|out|] == out
        invariant CornersOk(tris[best], verts, triangles[|out|], k)
        invariant Numbered(was, verts) && SameScore(was, verts)
        invariant AddedOk(tris, added, order) && OrderOk(tris, used, order) && stuck == old(stuck)
        invariant cache == TouchFirst(tris, order, cached, tris[best], k) && Unlisted(tris[best], best, k, was, verts)
      {
        ghost var before, had, touched := verts, added, cache;
        EmitCorner(best, k);
        CornerTouched(tris, used, verts, order, touched, best, k);
        assert TouchFirst(tris, order, cached, tris[best], k + 1) == cache by {
          TouchedNext(tris, order, cached, tris[best], k);
        }
        UnlistedMore(tris[best], best, was, before, verts, k);
        NumberedTwice(was, before, verts);
        CornerAdded(tris, had, added, order, best, k);
      }
      CornersDone(tris, used, verts, best);
      CachedNext(tris, old(order), best);
      OutMore(tris, was, verts, out, triangles, |triangles0|, old(order), best);
    }

    /** The vertices of the cache get their ranks and scores. */
    method Rescore()
      requires CacheOk(verts, cache)
      modifies this`verts
      ensures CacheOk(verts, cache) && SameUses(old(verts), verts) && SameIndex(old(verts), verts)
      ensures forall i :: 0 <= i < |cache| ==> cache[i] < |verts| && Scored(scoring, verts[cache[i]], i)
      ensures forall v :: 0 <= v < |verts| && v !in cache ==> verts[v] == old(verts)[v]
    {
      hide VertexScore;
      ghost var was := verts;
      for rank := 0 to |cache|
        invariant CacheOk(verts, cache) && SameUses(was, verts) && SameIndex(was, verts)
        invariant forall i :: 0 <= i < rank ==> Scored(scoring, verts[cache[i]], i)
        invariant forall v :: 0 <= v < |verts| && v !in cache ==> verts[v] == was[v]
      {
        var v := cache[rank];
        var score := VertexScore(scoring, rank, |verts[v].uses|);
        verts := verts[v := verts[v].(rank := rank, score := score)];
      }
    }

    /** Scores the triangles of the vertices in the cache and finds the first of the best, -1 if there is none. */
    method PickFromCache() returns (best: int)
      requires CacheOk(verts, cache) && ValidTris(tris, |verts|) && |tscore| == |tris|
      requires UsesInRange(verts, |tris|)
      modifies this`tscore
      ensures |tscore| == |tris| && UsesWithin(verts, cache, |tris|)
      ensures Best(best, tscore, Candidates(verts, cache))
      ensures forall t :: 0 <= t < |tris| ==>
                tscore[t] == if t in Candidates(verts, cache) then TriScore(verts, tris[t]) else old(tscore)[t]
    {
      hide Candidates, Best, TriScore, CacheOk;
      CacheInRange(verts, cache);
      best := -1;
      var bestscore := FLOOR;
      ghost var was, seen: seq<nat> := tscore, [];
      NoneSeen(tscore);
      NoCandidates(verts);
      for i := 0 to |cache|
        invariant |tscore| == |tris| && seen == Candidates(verts, cache[..i])
        invariant Best(best, tscore, seen) && bestscore == Bar(best, tscore)
        invariant forall t :: 0 <= t < |tris| ==>
                    tscore[t] == if t in seen then TriScore(verts, tris[t]) else was[t]
      {
        var v := cache[i];
        assert verts[v].uses[..0] == [] && seen + [] == seen;
        for j := 0 to |verts[v].uses|
          invariant |tscore| == |tris| && seen == Candidates(verts, cache[..i]) + verts[v].uses[..j]
          invariant Best(best, tscore, seen) && bestscore == Bar(best, tscore)
          invariant forall t :: 0 <= t < |tris| ==>
                      tscore[t] == if t in seen then TriScore(verts, tris[t]) else was[t]
        {
          var t := verts[v].uses[j];
          assert t in verts[v].uses;
          var score := TriScore(verts, tris[t]);
          BestMore(best, tscore, seen, t, score);
          tscore := tscore[t := score];
          if Above(score, bestscore) {
            best := t;
            bestscore := score.r;
          }
          seen := seen + [t];
          assert verts[v].uses[..j + 1] == verts[v].uses[..j] + [t];
          assert Candidates(verts, cache[..i]) + verts[v].uses[..j] + [t]
              == Candidates(verts, cache[..i]) + verts[v].uses[..j + 1];
        }
        CandidatesMore(verts, cache, i);
        assert verts[v].uses[..|verts[v].uses|] == verts[v].uses;
      }
      assert cache[..|cache|] == cache;
    }

    /** The vertices beyond the size of the cache leave it. */
    method Trim()
      requires CacheOk(verts, cache)
      modifies this`verts, this`cache
      ensures CacheOk(verts, cache) && SameUses(old(verts), verts) && SameIndex(old(verts), verts)
      ensures SameScore(old(verts), verts)
      ensures cache == if |old(cache)| > MAXVCACHE then old(cache)[..MAXVCACHE] else old(cache)
    {
      ghost var was, all := verts, cache;
      while |cache| > MAXVCACHE
        invariant CacheOk(verts, cache) && SameUses(was, verts) && SameIndex(was, verts) && SameScore(was, verts)
        invariant |cache| <= |all| && cache == all[..|cache|] && (|cache| < MAXVCACHE ==> cache == all)
        decreases |cache|
      {
        var v := cache[|cache| - 1];
        DropLast(verts, cache);
        cache := cache[..|cache| - 1];
        verts := verts[v := verts[v].(rank := -1)];
      }
    }

    /** The first of the best among all triangles that are left. */
    method PickAny() returns (best: int)
      requires |used| == |tscore| == |tris|
      ensures Best(best, tscore, Unused(used))
    {
      hide Best, Unused;
      best := -1;
      var bestscore := FLOOR;
      NoneSeen(tscore);
      assert used[..0] == [] && Unused([]) == [] by { NoneUnused(); }
      for t := 0 to |tris|
        invariant Best(best, tscore, Unused(used[..t])) && bestscore == Bar(best, tscore)
      {
        UnusedMore(used, t);
        assert tscore[t := tscore[t]] == tscore && Unused(used[..t]) + [] == Unused(used[..t]);
        BestMore(best, tscore, Unused(used[..t]), t, tscore[t]);
        if !used[t] && Above(tscore[t], bestscore) {
          best := t;
          bestscore := tscore[t].r;
        }
      }
      assert used[..|tris|] == used;
    }

    /** The next triangle to emit: from the cache, or else from all that are left. */
    method PickNext() returns (best: int)
      requires Sound() && UsesOk(tris, used, verts, -1, 0)
      requires order != [] && cache == Cached(tris, order) && ScoresTracked(tris, scoring, verts, order)
      requires Greedy(tris, scoring, order) && (Overfull(tris, order) <==> stuck >= 0 || |cache| > MAXVCACHE + 1)
      requires BeforePick(scoring, used, verts, cache, tscore, stuck)
      requires UsesTracked(tris, verts, order) && TrisTracked(tris, scoring, used, tscore, order[..|order| - 1])
      requires Follows(tris, scoring, order)
      modifies this`verts, this`tscore, this`cache, this`stuck
      ensures Valid() && Chosen(best)
    {
      hide UsesOk, CacheOk, VmapOk, OrderOk, OutOk, AddedOk, Candidates, Unused, ValidTris, Best, SameUses, SameIndex,
           SameScore, GoodScoring, SourceScoring, ScoresOk, UsesInRange, UsesWithin, Cached, ScoresTracked, Greedy,
           Overfull, BeforePick, Outlook, Choice, Exhausted, UsesTracked, TrisTracked, Follows, NextOf, LookedAt,
           FirstMax, UsesOfAll, TriScore;
      UsesAreUnused(tris, used, verts, cache);
      CacheInRange(verts, cache);
      ghost var cached, scores := cache, tscore;
      best := PickFromCache();
      ghost var lost := if stuck < 0 && |cache| > MAXVCACHE + 1 then cache[MAXVCACHE + 1] as int else stuck;
      CachedHaveUses(tris, used, verts, cache, order);
      AfterPick(scoring, tris, used, verts, cache, tscore, scores, stuck, lost);
      stuck := lost;
      ghost var seen := Candidates(verts, cache);
      CandidatesListed(tris, verts, cache, order);
      LookedAtCache(tris, order);
      PickTracked(tris, scoring, used, verts, tscore, scores, order, seen);
      BestIsFirst(best, tscore, seen);
      CacheChoice(tris, scoring, used, verts, cache, order, tscore, best);
      ghost var near := best;
      if best >= 0 {
        BestIsSeen(best, tscore, Candidates(verts, cache));
      }
      ghost var was := verts;
      Trim();
      Kept(was);
      TrackedKept(tris, scoring, was, verts, order);
      UsesTrackedKept(tris, was, verts, order);
      OutlookKept(scoring, used, was, verts, cache, tscore, stuck);
      assert cache == Trimmed(cached);
      if best < 0 {
        best := PickAny();
        if best >= 0 {
          BestIsSeen(best, tscore, Unused(used));
        } else {
          NoBest(best, tscore, Unused(used));
        }
        BestIsFirst(best, tscore, Unused(used));
      }
      NextIs(tris, scoring, used, tscore, order, seen, near, best);
    }

    /** Ranks and scores do not matter to what has been emitted. */
    lemma Kept(was: seq<Vertex>)
      requires SameUses(was, verts) && SameIndex(was, verts)
      requires ValidTris(tris, |was|) && VmapOk(was, mmap, vmap, |vmap0|, added)
      requires OutOk(tris, was, triangles, |triangles0|, order) && UsesOk(tris, used, was, -1, 0)
      ensures ValidTris(tris, |verts|) && VmapOk(verts, mmap, vmap, |vmap0|, added)
      ensures OutOk(tris, verts, triangles, |triangles0|, order) && UsesOk(tris, used, verts, -1, 0)
    {
      UsesKept(tris, used, was, verts, -1, 0);
      VmapKept(was, verts, mmap, vmap, |vmap0|, added);
      OutKept(tris, was, verts, triangles, |triangles0|, order);
    }

    /** One turn of the loop. */
    method Step(best: nat) returns (next: int)
      requires Valid() && Chosen(best)
      modifies this
      ensures Valid() && used == old(used)[best := true] && order == old(order) + [best]
      ensures Chosen(next)
    {
      hide UsesOk, CacheOk, VmapOk, OrderOk, OutOk, AddedOk, ValidTris, Best, SameIndex, SameScore, SameUses,
           GoodScoring, SourceScoring, ScoresOk, Unused, Cached, ScoresTracked, Greedy, Overfull, BeforePick, Outlook,
           Choice, Exhausted, Unlisted, Trimmed, Scored, UsesTracked, TrisTracked, Follows, NextOf, UsesAt;
      ghost var first, before, done := verts, cache, order;
      GreedyMore(tris, scoring, order, best);
      OverfullMore(tris, order, best);
      FollowsMore(tris, scoring, order, best);
      EmitTriangle(best);
      UsesAfter(tris, first, verts, done, best);
      ghost var was := verts;
      Rescore();
      Kept(was);
      UsesTrackedKept(tris, was, verts, order);
      FewerTracked(tris, scoring, old(used), tscore, order, best);
      TrackedAfter(tris, scoring, used, first, was, verts, cache, done, best);
      AfterRescore(scoring, tris, old(used), used, first, was, verts, before, cache, tscore, done, best, stuck);
      next := PickNext();
    }

    /** Nothing emitted yet; degenerate triangles count as used. */
    constructor (tris: seq<Triangle>, mmap: seq<SharedVert>, scoring: Scoring, vmap: seq<SharedVert>,
                 out: seq<Triangle>)
      requires ValidTris(tris, |mmap|)
      ensures this.tris == tris && this.mmap == mmap && this.scoring == scoring && vmap0 == vmap && triangles0 == out
      ensures order == [] && added == [] && cache == [] && stuck == -1
      ensures Sound() && UsesOk(tris, used, verts, -1, 0) && Fresh(verts) && UsesTracked(tris, verts, [])
    {
      this.tris := tris;
      this.mmap := mmap;
      this.scoring := scoring;
      this.used := [];
      this.tscore := seq(|tris|, _ => NaN);
      this.verts := seq(|mmap|, _ => Vertex(-1, -1, Num(-1.0), []));
      this.cache := [];
      this.vmap := vmap;
      this.vmap0 := vmap;
      this.triangles := out;
      this.triangles0 := out;
      this.order := [];
      this.added := [];
      this.stuck := -1;
      new;
      hide FilledOk, UsesOk, Listed;
      for i := 0 to |tris|
        modifies this`used
        invariant |used| == i && forall t :: 0 <= t < i ==> used[t] == tris[t].Degenerate()
      {
        used := used + [tris[i].Degenerate()];
      }
      NothingFilled(tris, used, verts);
      NothingListed(tris, verts);
      for i := |tris| downto 0
        modifies this`verts
        invariant |verts| == |mmap| && Fresh(verts) && FilledOk(tris, used, verts, i, 0) && Listed(tris, verts, i, 0)
      {
        if used[i] {
          SkipUsed(tris, used, verts, i);
          SkipListed(tris, verts, i);
        } else {
          for k := 0 to 3
            modifies this`verts
            invariant |verts| == |mmap| && Fresh(verts) && FilledOk(tris, used, verts, i + 1, k)
            invariant Listed(tris, verts, i + 1, k)
          {
            var v := tris[i].Corner(k);
            FillCorner(tris, used, verts, i, k);
            ListCorner(tris, verts, i, k);
            verts := verts[v := verts[v].(uses := [i] + verts[v].uses)];
          }
          FilledTriangle(tris, used, verts, i);
          ListedTriangle(tris, verts, i);
        }
      }
      AllFilled(tris, used, verts);
      AllListed(tris, verts);
    }

    /** The scores before the first triangle, and the best triangle. */
    method FirstBest() returns (best: int)
      requires Sound() && UsesOk(tris, used, verts, -1, 0) && Fresh(verts) && order == [] && cache == [] && stuck == -1
      requires UsesTracked(tris, verts, [])
      modifies this`verts, this`tscore
      ensures Valid() && Chosen(best)
    {
      hide UsesOk, CacheOk, VmapOk, OrderOk, OutOk, AddedOk, Best, Unused, VertexScore, TriScore, GoodScoring,
           SourceScoring, Cached, ScoresTracked, Greedy, Overfull, Outlook, Choice, Exhausted, ScoresOk, UsesTracked,
           TrisTracked, Follows, NextOf;
      ghost var was := verts;
      for v := 0 to |verts|
        invariant tscore == old(tscore) && SameUses(was, verts) && SameIndex(was, verts) && SameRank(was, verts)
        invariant forall w :: 0 <= w < v ==> verts[w].score == VertexScore(scoring, verts[w].rank, |verts[w].uses|)
      {
        verts := verts[v := verts[v].(score := VertexScore(scoring, verts[v].rank, |verts[v].uses|))];
      }
      Kept(was);
      CacheKept(was, verts, cache);
      best := -1;
      var bestscore := FLOOR;
      NoneSeen(tscore);
      assert used[..0] == [] && Unused([]) == [] by { NoneUnused(); }
      ghost var scored := verts;
      for t := 0 to |tris|
        invariant verts == scored && |tscore| == |tris|
        invariant Best(best, tscore, Unused(used[..t])) && bestscore == Bar(best, tscore)
        invariant forall u :: 0 <= u < t && !used[u] ==> tscore[u] == TriScore(verts, tris[u])
      {
        UnusedMore(used, t);
        assert Unused(used[..t]) + [] == Unused(used[..t]);
        if !used[t] {
          var score := TriScore(verts, tris[t]);
          BestMore(best, tscore, Unused(used[..t]), t, score);
          tscore := tscore[t := score];
          if Above(score, bestscore) {
            best := t;
            bestscore := score.r;
          }
        }
      }
      assert used[..|tris|] == used;
      if best >= 0 {
        BestIsSeen(best, tscore, Unused(used));
      } else {
        NoBest(best, tscore, Unused(used));
      }
      NothingDone(tris, scoring);
      FirstTracked(tris, scoring, used, verts);
      FirstOutlook(tris, scoring, used, verts, tscore);
      FirstChoice(tris, scoring, used, verts, tscore, best);
      UsesTrackedKept(tris, was, verts, []);
      FirstNext(tris, scoring, used, verts, tscore, best);
    }
  }

  // ---------- Use lists and scores of triangles, as the order determines them ----------

  lemma UsesTrackedKept(tris: seq<Triangle>, was: seq<Vertex>, now: seq<Vertex>, order: seq<nat>)
    requires UsesTracked(tris, was, order) && SameUses(was, now)
    ensures UsesTracked(tris, now, order)
  {
    hide UsesAt;
  }

  lemma UsesAfter(tris: seq<Triangle>, was: seq<Vertex>, now: seq<Vertex>, order: seq<nat>, best: nat)
    requires best < |tris| && UsesTracked(tris, was, order) && Unlisted(tris[best], best, 3, was, now)
    ensures UsesTracked(tris, now, order + [best])
  {
    hide Removed;
    assert (order + [best])[..|order|] == order;
  }

  lemma FewerTracked(tris: seq<Triangle>, f: Scoring, used: seq<bool>, tscore: seq<Score>, order: seq<nat>, best: nat)
    requires order != [] && best < |used| && TrisTracked(tris, f, used, tscore, order[..|order| - 1])
    ensures TrisTracked(tris, f, used[best := true], tscore, order[..|order| - 1])
  {
    hide TriScoreAt;
  }

  lemma {:induction false} CandidatesListed(tris: seq<Triangle>, verts: seq<Vertex>, cache: seq<nat>, order: seq<nat>)
    requires UsesTracked(tris, verts, order) && forall i :: 0 <= i < |cache| ==> cache[i] < |verts|
    ensures Candidates(verts, cache) == UsesOfAll(tris, order, cache)
    decreases |cache|
  {
    hide UsesAt;
    if cache != [] {
      CandidatesListed(tris, verts, cache[..|cache| - 1], order);
    }
  }

  lemma LookedAtCache(tris: seq<Triangle>, order: seq<nat>)
    requires order != []
    ensures LookedAt(tris, order) == UsesOfAll(tris, order, Cached(tris, order))
  {
    hide Cached, UsesOfAll;
  }

  /** The scores of the triangles after those of the cache were scored. */
  lemma PickTracked(tris: seq<Triangle>, f: Scoring, used: seq<bool>, verts: seq<Vertex>, now: seq<Score>,
                    was: seq<Score>, order: seq<nat>, seen: seq<nat>)
    requires order != [] && TrisTracked(tris, f, used, was, order[..|order| - 1]) && |now| == |tris|
    requires ValidTris(tris, |verts|) && ScoresTracked(tris, f, verts, order) && seen == LookedAt(tris, order)
    requires forall t :: 0 <= t < |tris| ==> now[t] == if t in seen then TriScore(verts, tris[t]) else was[t]
    ensures TrisTracked(tris, f, used, now, order)
  {
    hide ScoreOf, TriScore, ScoresTracked, LookedAt, ValidTris;
    forall t | 0 <= t < |tris| && !used[t]
      ensures now[t] == TriScoreAt(tris, f, order, t)
    {
      ValidAt(tris, |verts|, t);
      TriIsScore(tris, f, verts, order, t);
    }
  }

  lemma ValidAt(tris: seq<Triangle>, n: nat, t: nat)
    requires ValidTris(tris, n) && t < |tris|
    ensures tris[t].a < n && tris[t].b < n && tris[t].c < n
  {
  }

  lemma {:induction false} UnusedAreOpen(tris: seq<Triangle>, used: seq<bool>, order: seq<nat>, n: nat)
    requires OrderOk(tris, used, order) && n <= |tris|
    ensures Unused(used[..n]) == OpenTo(tris, order, n)
  {
    hide OrderOk;
    if n > 0 {
      UnusedAreOpen(tris, used, order, n - 1);
      UnusedIsOpen(tris, used, order, n - 1);
      UnusedMore(used, n - 1);
    }
  }

  lemma UnusedIsOpen(tris: seq<Triangle>, used: seq<bool>, order: seq<nat>, t: nat)
    requires OrderOk(tris, used, order) && t < |tris|
    ensures |used| == |tris| && (used[t] <==> !IsOpen(tris, order, t))
  {
    assert t in order <==> Drawn(tris, used, t);
  }

  /** What was picked, from the cache or from all that are left, is what the order determines. */
  lemma NextIs(tris: seq<Triangle>, f: Scoring, used: seq<bool>, tscore: seq<Score>, order: seq<nat>, seen: seq<nat>,
               near: int, best: int)
    requires OrderOk(tris, used, order) && TrisTracked(tris, f, used, tscore, order) && order != []
    requires seen == LookedAt(tris, order) && forall t :: t in seen ==> IsUnused(used, t)
    requires near == FirstMax(tscore, seen) && (near >= 0 ==> best == near)
    requires near < 0 ==> best == FirstMax(tscore, Unused(used))
    ensures best == NextOf(tris, f, order)
  {
    hide TriScoreAt, LookedAt, OrderOk, Unused, FirstMax;
    var scores := Scores(tris, f, order);
    FirstMaxAgrees(tscore, scores, seen);
    UnusedAreOpen(tris, used, order, |tris|);
    assert |used| == |tris| && used[..|tris|] == used;
    FirstMaxAgrees(tscore, scores, Unused(used));
  }

  lemma FirstNext(tris: seq<Triangle>, f: Scoring, used: seq<bool>, verts: seq<Vertex>, tscore: seq<Score>, best: int)
    requires OrderOk(tris, used, []) && ValidTris(tris, |verts|) && |tscore| == |tris|
    requires ScoresTracked(tris, f, verts, []) && Best(best, tscore, Unused(used))
    requires forall t :: 0 <= t < |tris| && !used[t] ==> tscore[t] == TriScore(verts, tris[t])
    ensures TrisTracked(tris, f, used, tscore, []) && Follows(tris, f, []) && best == NextOf(tris, f, [])
  {
    hide ScoreOf, TriScore, ScoresTracked, ValidTris, Unused, FirstMax;
    assert |used| == |tris|;
    forall t | 0 <= t < |tris| && !used[t]
      ensures tscore[t] == TriScoreAt(tris, f, [], t)
    {
      ValidAt(tris, |verts|, t);
      TriIsScore(tris, f, verts, [], t);
    }
    UnusedAreOpen(tris, used, [], |tris|);
    assert used[..|tris|] == used;
    FirstMaxAgrees(tscore, Scores(tris, f, []), Unused(used));
  }

  /** The use lists while they are filled, in their order. */
  ghost predicate Listed(tris: seq<Triangle>, verts: seq<Vertex>, i: nat, k: nat) {
    forall v :: 0 <= v < |verts| ==>
      verts[v].uses
      == (if 0 < i <= |tris| && tris[i - 1].Has(v) && !tris[i - 1].HasFrom(k, v) then [i - 1] else [])
         + ListFrom(tris, v, i)
  }

  lemma NothingListed(tris: seq<Triangle>, verts: seq<Vertex>)
    requires forall v :: 0 <= v < |verts| ==> verts[v].uses == []
    ensures Listed(tris, verts, |tris|, 0)
  {
  }

  lemma SkipListed(tris: seq<Triangle>, verts: seq<Vertex>, i: nat)
    requires i < |tris| && tris[i].Degenerate() && Listed(tris, verts, i + 1, 0)
    ensures Listed(tris, verts, i, 0)
  {
  }

  lemma ListCorner(tris: seq<Triangle>, verts: seq<Vertex>, i: nat, k: nat)
    requires i < |tris| && k < 3 && !tris[i].Degenerate() && Listed(tris, verts, i + 1, k)
    requires tris[i].Corner(k) < |verts|
    ensures var v := tris[i].Corner(k);
            Listed(tris, verts[v := verts[v].(uses := [i] + verts[v].uses)], i + 1, k + 1)
  {
    hide ListFrom;
  }

  lemma ListedTriangle(tris: seq<Triangle>, verts: seq<Vertex>, i: nat)
    requires i < |tris| && !tris[i].Degenerate() && Listed(tris, verts, i + 1, 3)
    ensures Listed(tris, verts, i, 0)
  {
  }

  lemma AllListed(tris: seq<Triangle>, verts: seq<Vertex>)
    requires Listed(tris, verts, 0, 0)
    ensures UsesTracked(tris, verts, [])
  {
    hide ListFrom;
  }

  /** The outlook after the scores of the cache were set and before the next triangle is picked. */
  ghost predicate BeforePick(f: Scoring, used: seq<bool>, verts: seq<Vertex>, cache: seq<nat>, tscore: seq<Score>,
                             stuck: int)
    requires |used| == |tscore|
  {
    && (GoodScoring(f) ==> ScoresOk(used, verts, tscore))
    && (SourceScoring(f) ==>
          if stuck >= 0 then Stuck(verts, cache, tscore, stuck)
          else if |cache| <= MAXVCACHE + 1 then ScoresOk(used, verts, tscore)
          else cache[MAXVCACHE + 1] < |verts| && verts[cache[MAXVCACHE + 1]].score == NaN)
  }

  lemma TrackedKept(tris: seq<Triangle>, f: Scoring, was: seq<Vertex>, now: seq<Vertex>, order: seq<nat>)
    requires ScoresTracked(tris, f, was, order) && SameScore(was, now)
    ensures ScoresTracked(tris, f, now, order)
  {
    hide ScoreAt;
  }

  lemma OutlookKept(f: Scoring, used: seq<bool>, was: seq<Vertex>, now: seq<Vertex>, cache: seq<nat>,
                    tscore: seq<Score>, stuck: int)
    requires |used| == |tscore| && Outlook(f, used, was, cache, tscore, stuck)
    requires SameScore(was, now) && SameUses(was, now)
    ensures Outlook(f, used, now, cache, tscore, stuck)
  {
    hide GoodScoring, SourceScoring;
    SameScores(used, was, now, tscore);
  }

  /** The candidates are the near triangles, and their scores those that the order determines. */
  lemma CandidatesAreNear(tris: seq<Triangle>, used: seq<bool>, verts: seq<Vertex>, cache: seq<nat>, order: seq<nat>)
    requires UsesOk(tris, used, verts, -1, 0) && OrderOk(tris, used, order)
    requires order != [] && cache == Cached(tris, order) && forall i :: 0 <= i < |cache| ==> cache[i] < |verts|
    ensures forall t: nat :: t in Candidates(verts, cache) <==> Near(tris, order, t)
  {
    hide Candidates, Open, Cached;
    forall t: nat
      ensures t in Candidates(verts, cache) <==> Near(tris, order, t)
    {
      CandidateOf(verts, cache, t);
      if t in Candidates(verts, cache) {
        var v :| v in cache && t in verts[v].uses;
        UsesAreOpen(tris, used, verts, order, v);
        assert OpenAt(tris, order, v, t);
      }
      if Near(tris, order, t) {
        var v :| v in Cached(tris, order) && tris[t].Has(v);
        UsesAreOpen(tris, used, verts, order, v);
        assert OpenAt(tris, order, v, t);
      }
    }
  }

  lemma {:induction false} CandidateOf(verts: seq<Vertex>, cache: seq<nat>, t: nat)
    requires forall i :: 0 <= i < |cache| ==> cache[i] < |verts|
    ensures t in Candidates(verts, cache) <==> exists v :: v in cache && v < |verts| && t in verts[v].uses
    decreases |cache|
  {
    if cache != [] {
      var n := |cache| - 1;
      CandidateOf(verts, cache[..n], t);
      assert cache == cache[..n] + [cache[n]];
    }
  }

  lemma TriIsScore(tris: seq<Triangle>, f: Scoring, verts: seq<Vertex>, order: seq<nat>, t: nat)
    requires t < |tris| && ValidTris(tris, |verts|) && ScoresTracked(tris, f, verts, order)
    ensures tris[t].a < |verts| && tris[t].b < |verts| && tris[t].c < |verts|
    ensures TriScore(verts, tris[t]) == ScoreOf(tris, f, order, tris[t])
  {
    hide ScoreAt;
  }

  /** The best candidate is a greedy choice; without one, nothing near can be chosen. */
  lemma CacheChoice(tris: seq<Triangle>, f: Scoring, used: seq<bool>, verts: seq<Vertex>, cache: seq<nat>,
                    order: seq<nat>, tscore: seq<Score>, best: int)
    requires UsesOk(tris, used, verts, -1, 0) && OrderOk(tris, used, order) && ValidTris(tris, |verts|)
    requires order != [] && cache == Cached(tris, order) && forall i :: 0 <= i < |cache| ==> cache[i] < |verts|
    requires ScoresTracked(tris, f, verts, order) && |tscore| == |tris|
    requires Best(best, tscore, Candidates(verts, cache))
    requires forall t :: 0 <= t < |tris| && t in Candidates(verts, cache) ==> tscore[t] == TriScore(verts, tris[t])
    ensures best >= 0 ==> best < |tris| && Above(tscore[best], FLOOR) && Choice(tris, f, order, best)
    ensures best < 0 ==> Exhausted(tris, f, order) && forall b: nat :: Choice(tris, f, order, b)
  {
    hide Candidates, Cached, ScoreOf, TriScore, UsesOk, OrderOk, ValidTris, ScoresTracked, Near;
    CandidatesAreNear(tris, used, verts, cache, order);
    forall t: nat | Near(tris, order, t)
      ensures t < |tris| && tscore[t] == ScoreOf(tris, f, order, tris[t])
    {
      TriIsScore(tris, f, verts, order, t);
    }
  }

  lemma FirstChoice(tris: seq<Triangle>, f: Scoring, used: seq<bool>, verts: seq<Vertex>, tscore: seq<Score>, best: int)
    requires OrderOk(tris, used, []) && ValidTris(tris, |verts|) && |tscore| == |tris|
    requires ScoresTracked(tris, f, verts, []) && Best(best, tscore, Unused(used))
    requires forall t :: 0 <= t < |tris| && !used[t] ==> tscore[t] == TriScore(verts, tris[t])
    ensures best >= 0 ==> best < |tris| && Above(tscore[best], FLOOR) && Choice(tris, f, [], best)
    ensures best < 0 ==> Exhausted(tris, f, [])
  {
    hide Cached, ScoreOf, TriScore, ValidTris, ScoresTracked, Unused;
    forall t: nat
      ensures Near(tris, [], t) <==> IsUnused(used, t)
      ensures Near(tris, [], t) ==> tscore[t] == ScoreOf(tris, f, [], tris[t])
    {
      assert t in [] <==> Drawn(tris, used, t);
      if IsUnused(used, t) {
        TriIsScore(tris, f, verts, [], t);
      }
    }
    hide Near;
  }

  lemma NothingDone(tris: seq<Triangle>, f: Scoring)
    ensures Trimmed(Cached(tris, [])) == [] && Greedy(tris, f, []) && !Overfull(tris, [])
  {
    var none: seq<nat> := [];
    assert none[..0] == none;
  }

  lemma FirstTracked(tris: seq<Triangle>, f: Scoring, used: seq<bool>, verts: seq<Vertex>)
    requires UsesOk(tris, used, verts, -1, 0) && OrderOk(tris, used, []) && Fresh(verts)
    requires forall v :: 0 <= v < |verts| ==> verts[v].score == VertexScore(f, verts[v].rank, |verts[v].uses|)
    ensures ScoresTracked(tris, f, verts, [])
  {
    hide Open, VertexScore;
    forall v | 0 <= v < |verts|
      ensures verts[v].score == ScoreAt(tris, f, [], v)
    {
      UsesAreOpen(tris, used, verts, [], v);
    }
  }

  lemma FirstOutlook(tris: seq<Triangle>, f: Scoring, used: seq<bool>, verts: seq<Vertex>, tscore: seq<Score>)
    requires |used| == |tscore| == |tris| && ValidTris(tris, |verts|) && Fresh(verts)
    requires forall v :: 0 <= v < |verts| ==> verts[v].score == VertexScore(f, verts[v].rank, |verts[v].uses|)
    requires forall t :: 0 <= t < |tris| && !used[t] ==> tscore[t] == TriScore(verts, tris[t])
    ensures Outlook(f, used, verts, [], tscore, -1)
  {
    hide TriScore;
    if GoodScoring(f) || SourceScoring(f) {
      forall v | 0 <= v < |verts|
        ensures Good(verts[v].score)
      {
      }
      FirstScores(tris, used, verts, tscore);
    }
  }

  /** The scores after a triangle was emitted and the cache was scored. */
  lemma TrackedAfter(tris: seq<Triangle>, f: Scoring, used: seq<bool>, first: seq<Vertex>, was: seq<Vertex>,
                     now: seq<Vertex>, cache: seq<nat>, order: seq<nat>, best: nat)
    requires ScoresTracked(tris, f, first, order) && SameScore(first, was) && SameUses(was, now)
    requires cache == Cached(tris, order + [best]) && CacheOk(now, cache)
    requires UsesOk(tris, used, now, -1, 0) && OrderOk(tris, used, order + [best])
    requires forall i :: 0 <= i < |cache| ==> cache[i] < |now| && Scored(f, now[cache[i]], i)
    requires forall v :: 0 <= v < |now| && v !in cache ==> now[v] == was[v]
    ensures ScoresTracked(tris, f, now, order + [best])
  {
    hide Cached, Open, VertexScore, UsesOk, OrderOk;
    var more := order + [best];
    assert more[..|more| - 1] == order;
    forall v | 0 <= v < |now|
      ensures now[v].score == ScoreAt(tris, f, more, v)
    {
      UsesAreOpen(tris, used, now, more, v);
      if v in cache {
        assert Scored(f, now[cache[Position(cache, v)]], Position(cache, v));
      }
    }
  }

  /** The outlook after a triangle was emitted and the cache was scored. */
  lemma AfterRescore(f: Scoring, tris: seq<Triangle>, used0: seq<bool>, used: seq<bool>, first: seq<Vertex>,
                     was: seq<Vertex>, now: seq<Vertex>, cache0: seq<nat>, cache: seq<nat>, tscore: seq<Score>,
                     order: seq<nat>, best: nat, stuck: int)
    requires |used0| == |used| == |tscore| == |tris| && best < |tris| && !used0[best] && used == used0[best := true]
    requires Outlook(f, used0, first, cache0, tscore, stuck) && Above(tscore[best], FLOOR)
    requires UsesOk(tris, used0, first, -1, 0)
    requires SameScore(first, was) && Unlisted(tris[best], best, 3, first, was) && SameUses(was, now)
    requires cache0 == Trimmed(Cached(tris, order)) && cache == Cached(tris, order + [best]) && CacheOk(now, cache)
    requires UsesOk(tris, used, now, -1, 0) && OrderOk(tris, used, order + [best])
    requires forall i :: 0 <= i < |cache| ==> cache[i] < |now| && Scored(f, now[cache[i]], i)
    requires forall v :: 0 <= v < |now| && v !in cache ==> now[v] == was[v]
    ensures BeforePick(f, used, now, cache, tscore, stuck)
  {
    hide Cached, Open, VertexScore, UsesOk, OrderOk, CacheOk, GoodScoring, SourceScoring, ScoresOk, Stuck;
    if GoodScoring(f) {
      FewerUnused(used0, best, first, was, tscore);
      GoodRanks(f);
      ScoredGood(f, used, was, now, cache, tscore);
    }
    if SourceScoring(f) {
      if stuck >= 0 {
        StaysStuck(tris, used0, first, was, now, cache0, cache, tscore, order, best, stuck);
      } else if |cache| <= MAXVCACHE + 1 {
        FewerUnused(used0, best, first, was, tscore);
        SourceRanks(f);
        ScoredGood(f, used, was, now, cache, tscore);
      } else {
        BeyondRank(f, tris, used, now, cache, order + [best]);
      }
    }
  }

  lemma GoodRanks(f: Scoring)
    requires GoodScoring(f)
    ensures forall rank: nat, n: nat :: n > 0 ==> Good(f(rank, n))
  {
  }

  lemma SourceRanks(f: Scoring)
    requires SourceScoring(f)
    ensures forall rank: nat, n: nat :: n > 0 && rank <= MAXVCACHE ==> Good(f(rank, n))
  {
  }

  /** The vertices of the cache have triangles left. */
  lemma CachedHaveUses(tris: seq<Triangle>, used: seq<bool>, verts: seq<Vertex>, cache: seq<nat>, order: seq<nat>)
    requires cache == Cached(tris, order) && UsesOk(tris, used, verts, -1, 0) && OrderOk(tris, used, order)
    requires forall i :: 0 <= i < |cache| ==> cache[i] < |verts|
    ensures forall i :: 0 <= i < |cache| ==> verts[cache[i]].uses != []
  {
    hide Cached, Open, UsesOk;
    forall t | t in order
      ensures t < |tris|
    {
      assert Drawn(tris, used, t);
    }
    forall i | 0 <= i < |cache|
      ensures verts[cache[i]].uses != []
    {
      assert cache[i] in cache;
      CachedAreOpen(tris, order, cache[i]);
      UsesAreOpen(tris, used, verts, order, cache[i]);
    }
  }

  /** The vertex at rank 33 has no score, since it has triangles left. */
  lemma BeyondRank(f: Scoring, tris: seq<Triangle>, used: seq<bool>, verts: seq<Vertex>, cache: seq<nat>,
                   order: seq<nat>)
    requires SourceScoring(f) && |cache| > MAXVCACHE + 1 && cache == Cached(tris, order)
    requires UsesOk(tris, used, verts, -1, 0) && OrderOk(tris, used, order)
    requires forall i :: 0 <= i < |cache| ==> cache[i] < |verts| && Scored(f, verts[cache[i]], i)
    ensures cache[MAXVCACHE + 1] < |verts| && verts[cache[MAXVCACHE + 1]].score == NaN
  {
    hide Cached, UsesOk, OrderOk;
    CachedHaveUses(tris, used, verts, cache, order);
    assert Scored(f, verts[cache[MAXVCACHE + 1]], MAXVCACHE + 1);
  }

  /** Emitting another triangle does not touch a vertex that is stuck. */
  lemma StaysStuck(tris: seq<Triangle>, used0: seq<bool>, first: seq<Vertex>, was: seq<Vertex>, now: seq<Vertex>,
                   cache0: seq<nat>, cache: seq<nat>, tscore: seq<Score>, order: seq<nat>, best: nat, stuck: nat)
    requires |used0| == |tscore| == |tris| && best < |tris| && !used0[best] && Above(tscore[best], FLOOR)
    requires UsesOk(tris, used0, first, -1, 0) && Stuck(first, cache0, tscore, stuck)
    requires SameScore(first, was) && Unlisted(tris[best], best, 3, first, was) && SameUses(was, now)
    requires cache0 == Trimmed(Cached(tris, order)) && cache == Cached(tris, order + [best])
    requires forall v :: 0 <= v < |now| && v !in cache ==> now[v] == was[v]
    ensures Stuck(now, cache, tscore, stuck)
  {
    hide Cached, Open, TouchFirst, Trimmed;
    assert best in first[stuck].uses <==> InUse(tris, used0, -1, 0, best, stuck);
    assert !tris[best].Has(stuck);
    CachedNext(tris, order, best);
    TouchedMembers(tris, order + [best], cache0, tris[best], stuck);
  }

  /** The outlook after the triangles of the cache were scored, and once the cache is cut. */
  lemma AfterPick(f: Scoring, tris: seq<Triangle>, used: seq<bool>, verts: seq<Vertex>, cache: seq<nat>,
                  now: seq<Score>, was: seq<Score>, stuck: int, lost: int)
    requires |now| == |was| == |used| == |tris| && ValidTris(tris, |verts|) && CacheOk(verts, cache)
    requires UsesOk(tris, used, verts, -1, 0) && forall i :: 0 <= i < |cache| ==> cache[i] < |verts|
    requires BeforePick(f, used, verts, cache, was, stuck)
    requires forall t :: 0 <= t < |tris| ==>
               now[t] == if t in Candidates(verts, cache) then TriScore(verts, tris[t]) else was[t]
    requires lost == if stuck < 0 && |cache| > MAXVCACHE + 1 then cache[MAXVCACHE + 1] as int else stuck
    requires SourceScoring(f) && stuck < 0 && |cache| > MAXVCACHE + 1 ==> verts[cache[MAXVCACHE + 1]].uses != []
    ensures Outlook(f, used, verts, Trimmed(cache), now, lost)
  {
    hide GoodScoring, SourceScoring, Candidates, TriScore;
    if GoodScoring(f) {
      StillGood(tris, used, verts, now, was, Candidates(verts, cache));
    }
    if SourceScoring(f) {
      if lost < 0 {
        StillGood(tris, used, verts, now, was, Candidates(verts, cache));
      } else {
        NotKept(cache);
        LostScores(tris, used, verts, cache, now, was, lost);
      }
    }
  }

  lemma NotKept(cache: seq<nat>)
    requires NoDup(cache)
    ensures |cache| > MAXVCACHE + 1 ==> cache[MAXVCACHE + 1] !in Trimmed(cache)
    ensures forall v :: v in Trimmed(cache) ==> v in cache
  {
  }

  /** No triangle of a vertex without a score has one. */
  lemma LostScores(tris: seq<Triangle>, used: seq<bool>, verts: seq<Vertex>, cache: seq<nat>, now: seq<Score>,
                   was: seq<Score>, lost: nat)
    requires |now| == |was| == |used| == |tris| && ValidTris(tris, |verts|)
    requires UsesOk(tris, used, verts, -1, 0) && forall i :: 0 <= i < |cache| ==> cache[i] < |verts|
    requires lost < |verts| && verts[lost].score == NaN
    requires lost in cache || forall t :: t in verts[lost].uses ==> t < |was| && was[t] == NaN
    requires forall t :: 0 <= t < |tris| ==>
               now[t] == if t in Candidates(verts, cache) then TriScore(verts, tris[t]) else was[t]
    ensures forall t :: t in verts[lost].uses ==> t < |now| && now[t] == NaN
  {
    hide Candidates;
    forall t | t in verts[lost].uses
      ensures t < |now| && now[t] == NaN
    {
      assert InUse(tris, used, -1, 0, t, lost);
      CandidateOf(verts, cache, t);
    }
  }

  lemma OutKept(tris: seq<Triangle>, was: seq<Vertex>, now: seq<Vertex>, out: seq<Triangle>, base: nat, order: seq<nat>)
    requires OutOk(tris, was, out, base, order) && SameIndex(was, now)
    ensures OutOk(tris, now, out, base, order)
  {
  }

  lemma UsesAreUnused(tris: seq<Triangle>, used: seq<bool>, verts: seq<Vertex>, cache: seq<nat>)
    requires UsesOk(tris, used, verts, -1, 0) && CacheOk(verts, cache)
    ensures UsesInRange(verts, |tris|)
    ensures forall i :: 0 <= i < |cache| ==> cache[i] < |verts|
    ensures forall t :: t in Candidates(verts, cache) ==> IsUnused(used, t)
  {
    forall v, t | 0 <= v < |verts| && t in verts[v].uses
      ensures IsUnused(used, t)
    {
      assert InUse(tris, used, -1, 0, t, v);
    }
    AllCandidates(verts, cache, used);
  }

  lemma {:induction false} AllCandidates(verts: seq<Vertex>, cache: seq<nat>, used: seq<bool>)
    requires forall v, t :: 0 <= v < |verts| && t in verts[v].uses ==> IsUnused(used, t)
    requires forall i :: 0 <= i < |cache| ==> cache[i] < |verts|
    ensures forall t :: t in Candidates(verts, cache) ==> IsUnused(used, t)
  {
    if cache != [] {
      AllCandidates(verts, cache[..|cache| - 1], used);
    }
  }

  lemma BestIsSeen(best: nat, score: seq<Score>, seen: seq<nat>)
    requires Best(best, score, seen)
    ensures best in seen && best < |score| && Above(score[best], FLOOR)
  {
  }

  lemma BestIsFirst(best: int, score: seq<Score>, seen: seq<nat>)
    requires Best(best, score, seen)
    ensures best == FirstMax(score, seen)
  {
  }

  lemma NoBest(best: int, score: seq<Score>, seen: seq<nat>)
    requires best < 0 && Best(best, score, seen)
    ensures best == -1
  {
  }

  lemma GoodTriangle(verts: seq<Vertex>, t: Triangle)
    requires t.a < |verts| && t.b < |verts| && t.c < |verts|
    requires Good(verts[t.a].score) && Good(verts[t.b].score) && Good(verts[t.c].score)
    ensures Above(TriScore(verts, t), FLOOR)
  {
  }

  lemma StillGood(tris: seq<Triangle>, used: seq<bool>, verts: seq<Vertex>, now: seq<Score>, was: seq<Score>,
                  seen: seq<nat>)
    requires |now| == |was| == |used| == |tris| && ValidTris(tris, |verts|) && ScoresOk(used, verts, was)
    requires forall t :: 0 <= t < |tris| ==> now[t] == if t in seen then TriScore(verts, tris[t]) else was[t]
    ensures ScoresOk(used, verts, now)
  {
    forall t | 0 <= t < |used| && !used[t]
      ensures Above(now[t], FLOOR)
    {
      GoodTriangle(verts, tris[t]);
    }
  }

  lemma SameScores(used: seq<bool>, was: seq<Vertex>, now: seq<Vertex>, tscore: seq<Score>)
    requires |used| == |tscore| && SameScore(was, now)
    ensures ScoresOk(used, was, tscore) ==> ScoresOk(used, now, tscore)
  {
  }

  lemma FewerUnused(used: seq<bool>, best: nat, was: seq<Vertex>, now: seq<Vertex>, tscore: seq<Score>)
    requires best < |used| == |tscore| && SameScore(was, now) && ScoresOk(used, was, tscore)
    ensures ScoresOk(used[best := true], now, tscore)
  {
  }

  lemma ScoredGood(f: Scoring, used: seq<bool>, was: seq<Vertex>, now: seq<Vertex>, cache: seq<nat>, tscore: seq<Score>)
    requires forall rank: nat, n: nat :: n > 0 && rank < |cache| ==> Good(f(rank, n))
    requires |used| == |tscore| && |was| == |now| && ScoresOk(used, was, tscore)
    requires forall i :: 0 <= i < |cache| ==> cache[i] < |now| && Scored(f, now[cache[i]], i)
    requires forall v :: 0 <= v < |now| && v !in cache ==> now[v] == was[v]
    ensures ScoresOk(used, now, tscore)
  {
    forall v | 0 <= v < |now|
      ensures Good(now[v].score)
    {
      if v in cache {
        var i :| 0 <= i < |cache| && cache[i] == v;
        assert Scored(f, now[cache[i]], i);
      }
    }
  }

  ghost predicate Fresh(verts: seq<Vertex>) {
    forall v :: 0 <= v < |verts| ==> verts[v].index == -1 && verts[v].rank == -1
  }

  /** The use lists while they are filled from the last triangle down to `i`, with `k` corners of the one before. */
  ghost predicate FilledOk(tris: seq<Triangle>, used: seq<bool>, verts: seq<Vertex>, i: nat, k: nat) {
    && |used| == |tris|
    && forall v :: 0 <= v < |verts| ==>
         NoDup(verts[v].uses) && forall t :: t in verts[v].uses <==> InList(tris, used, i, k, t, v)
  }

  ghost predicate InList(tris: seq<Triangle>, used: seq<bool>, i: nat, k: nat, t: nat, v: nat)
    requires |used| == |tris|
  {
    && t < |tris| && !used[t]
    && if t >= i then tris[t].Has(v) else t + 1 == i && tris[t].Has(v) && !tris[t].HasFrom(k, v)
  }

  lemma NothingFilled(tris: seq<Triangle>, used: seq<bool>, verts: seq<Vertex>)
    requires |used| == |tris| && forall v :: 0 <= v < |verts| ==> verts[v].uses == []
    ensures FilledOk(tris, used, verts, |tris|, 0)
  {
  }

  lemma SameInList(tris: seq<Triangle>, used: seq<bool>, verts: seq<Vertex>, i: nat, k: nat, j: nat)
    requires FilledOk(tris, used, verts, i, k)
    requires forall t: nat, v: nat :: InList(tris, used, i, k, t, v) == InList(tris, used, j, 0, t, v)
    ensures FilledOk(tris, used, verts, j, 0)
  {
    hide InList;
  }

  lemma SkipUsed(tris: seq<Triangle>, used: seq<bool>, verts: seq<Vertex>, i: nat)
    requires FilledOk(tris, used, verts, i + 1, 0) && i < |tris| && used[i]
    ensures FilledOk(tris, used, verts, i, 0)
  {
    SameInList(tris, used, verts, i + 1, 0, i);
  }

  lemma FilledTriangle(tris: seq<Triangle>, used: seq<bool>, verts: seq<Vertex>, i: nat)
    requires FilledOk(tris, used, verts, i + 1, 3) && i < |tris| && !used[i]
    ensures FilledOk(tris, used, verts, i, 0)
  {
    SameInList(tris, used, verts, i + 1, 3, i);
  }

  lemma FillCorner(tris: seq<Triangle>, used: seq<bool>, verts: seq<Vertex>, i: nat, k: nat)
    requires FilledOk(tris, used, verts, i + 1, k) && i < |tris| && k < 3 && !used[i] && !tris[i].Degenerate()
    requires tris[i].Corner(k) < |verts|
    ensures var v := tris[i].Corner(k);
            FilledOk(tris, used, verts[v := verts[v].(uses := [i] + verts[v].uses)], i + 1, k + 1)
  {
    var v := tris[i].Corner(k);
    var now := verts[v := verts[v].(uses := [i] + verts[v].uses)];
    assert !InList(tris, used, i + 1, k, i, v);
    NoDupMore(verts[v].uses, i);
    forall w, t: nat | 0 <= w < |now|
      ensures t in now[w].uses <==> InList(tris, used, i + 1, k + 1, t, w)
    {
      assert t in verts[w].uses <==> InList(tris, used, i + 1, k, t, w);
    }
  }

  lemma AllFilled(tris: seq<Triangle>, used: seq<bool>, verts: seq<Vertex>)
    requires FilledOk(tris, used, verts, 0, 0)
    ensures UsesOk(tris, used, verts, -1, 0)
  {
    forall t: nat, v: nat
      ensures InList(tris, used, 0, 0, t, v) == InUse(tris, used, -1, 0, t, v)
    {
    }
    hide InList, InUse;
  }

  lemma FirstScores(tris: seq<Triangle>, used: seq<bool>, verts: seq<Vertex>, tscore: seq<Score>)
    requires |used| == |tscore| == |tris| && ValidTris(tris, |verts|)
    requires forall v :: 0 <= v < |verts| ==> Good(verts[v].score)
    requires forall t :: 0 <= t < |tris| && !used[t] ==> tscore[t] == TriScore(verts, tris[t])
    ensures ScoresOk(used, verts, tscore)
  {
    hide TriScore, Good;
    forall t | 0 <= t < |used| && !used[t]
      ensures Above(tscore[t], FLOOR)
    {
      GoodTriangle(verts, tris[t]);
    }
  }

  ghost predicate UsesInRange(verts: seq<Vertex>, n: nat) {
    forall v, t :: 0 <= v < |verts| && t in verts[v].uses ==> t < n
  }

  ghost predicate UsesWithin(verts: seq<Vertex>, cache: seq<nat>, n: nat) {
    forall v :: v in cache ==> v < |verts| && forall t :: t in verts[v].uses ==> t < n
  }

  lemma CacheInRange(verts: seq<Vertex>, cache: seq<nat>)
    requires CacheOk(verts, cache)
    ensures forall i :: 0 <= i < |cache| ==> cache[i] < |verts|
  {
  }

  lemma DropLast(verts: seq<Vertex>, cache: seq<nat>)
    requires CacheOk(verts, cache) && cache != []
    ensures cache[|cache| - 1] < |verts|
    ensures var v := cache[|cache| - 1]; CacheOk(verts[v := verts[v].(rank := -1)], cache[..|cache| - 1])
  {
    var v, now := cache[|cache| - 1], cache[..|cache| - 1];
    assert cache == now + [v];
  }

  /** The triangles of the vertices in the cache, in the order in which they are looked at. */
  function Candidates(verts: seq<Vertex>, cache: seq<nat>): seq<nat>
    requires forall i :: 0 <= i < |cache| ==> cache[i] < |verts|
  {
    if cache == [] then []
    else
      var n := |cache| - 1;
      Candidates(verts, cache[..n]) + verts[cache[n]].uses
  }

  lemma NoCandidates(verts: seq<Vertex>)
    ensures Candidates(verts, []) == []
  {
  }

  lemma CandidatesMore(verts: seq<Vertex>, cache: seq<nat>, i: nat)
    requires forall j :: 0 <= j < |cache| ==> cache[j] < |verts|
    requires i < |cache|
    ensures Candidates(verts, cache[..i + 1]) == Candidates(verts, cache[..i]) + verts[cache[i]].uses
  {
    assert cache[..i + 1][..i] == cache[..i];
  }

  predicate IsUnused(used: seq<bool>, t: nat) {
    t < |used| && !used[t]
  }

  /** The indices of the triangles that are still to be emitted. */
  function Unused(used: seq<bool>): (r: seq<nat>)
    ensures forall t :: t in r <==> IsUnused(used, t)
  {
    if used == [] then []
    else
      var n := |used| - 1;
      Unused(used[..n]) + if used[n] then [] else [n]
  }

  lemma NoneUnused()
    ensures Unused([]) == []
  {
  }

  lemma UnusedMore(used: seq<bool>, t: nat)
    requires t < |used|
    ensures Unused(used[..t + 1]) == Unused(used[..t]) + if used[t] then [] else [t]
  {
    assert used[..t + 1][..t] == used[..t];
  }

  /** `best` is the first of the highest scores in `seen`, -1 if none of them is above the floor. */
  ghost predicate Best(best: int, score: seq<Score>, seen: seq<nat>) {
    && (forall t :: t in seen ==> t < |score|) && best == FirstMax(score, seen)
    && if best < 0 then best == -1 && forall t :: t in seen ==> !Above(score[t], FLOOR)
       else best in seen && Above(score[best], FLOOR) && forall t :: t in seen ==> !Above(score[t], score[best].r)
  }

  lemma NoneSeen(score: seq<Score>)
    ensures Best(-1, score, [])
  {
  }

  /** One more triangle is looked at, whose score may just have been written. */
  lemma BestMore(best: int, score: seq<Score>, seen: seq<nat>, t: nat, s: Score)
    requires Best(best, score, seen) && t < |score| && (t in seen ==> s == score[t])
    ensures var now := score[t := s];
            var better := Above(s, Bar(best, score));
            && Best(if better then t else best, now, seen + [t])
            && Bar(if better then t else best, now) == if better then s.r else Bar(best, score)
  {
    FirstMaxAgrees(score, score[t := s], seen);
    assert (seen + [t])[..|seen|] == seen;
  }

  /** What calcscore makes of the vertex at a rank of the cache. */
  ghost predicate Scored(f: Scoring, v: Vertex, rank: nat) {
    v.rank == rank && v.score == VertexScore(f, rank, |v.uses|)
  }

  function TriScore(verts: seq<Vertex>, t: Triangle): Score
    requires t.a < |verts| && t.b < |verts| && t.c < |verts|
  {
    Add(Add(verts[t.a].score, verts[t.b].score), verts[t.c].score)
  }

  /** Triangle `best` has been taken out of the use lists of its corners before corner `k`. */
  ghost predicate Unlisted(tri: Triangle, best: nat, k: nat, was: seq<Vertex>, now: seq<Vertex>) {
    && |was| == |now|
    && forall w :: 0 <= w < |was| ==>
         now[w].uses == if tri.Has(w) && !tri.HasFrom(k, w) then Removed(was[w].uses, best) else was[w].uses
  }

  lemma NothingUnlisted(tri: Triangle, best: nat, verts: seq<Vertex>)
    ensures Unlisted(tri, best, 0, verts, verts)
  {
  }

  lemma UnlistedMore(tri: Triangle, best: nat, was: seq<Vertex>, before: seq<Vertex>, now: seq<Vertex>, k: nat)
    requires k < 3 && !tri.Degenerate() && Unlisted(tri, best, k, was, before) && |before| == |now|
    requires tri.Corner(k) < |now|
    requires forall w :: 0 <= w < |now| ==>
               now[w].uses == if w == tri.Corner(k) then Removed(before[w].uses, best) else before[w].uses
    ensures Unlisted(tri, best, k + 1, was, now)
  {
    hide Removed;
  }

  lemma NoneTouched(tris: seq<Triangle>, done: seq<nat>, cache: seq<nat>, tri: Triangle)
    ensures TouchFirst(tris, done, cache, tri, 0) == cache
  {
  }

  lemma TouchedNext(tris: seq<Triangle>, done: seq<nat>, cache: seq<nat>, tri: Triangle, k: nat)
    requires k < 3
    ensures TouchFirst(tris, done, cache, tri, k + 1)
            == Touch(tris, done, TouchFirst(tris, done, cache, tri, k), tri.Corner(k))
  {
  }

  lemma CachedNext(tris: seq<Triangle>, order: seq<nat>, best: nat)
    requires best < |tris|
    ensures Cached(tris, order + [best])
            == TouchFirst(tris, order + [best], Trimmed(Cached(tris, order)), tris[best], 3)
  {
    hide TouchFirst;
    assert (order + [best])[..|order|] == order;
  }

  /** What EmitCorner does to the cache is what the order of the triangles determines. */
  lemma CornerTouched(tris: seq<Triangle>, used: seq<bool>, verts: seq<Vertex>, order: seq<nat>, cache: seq<nat>,
                      best: nat, k: nat)
    requires k < 3 && best < |tris| && UsesOk(tris, used, verts, best, k + 1) && OrderOk(tris, used, order)
    requires tris[best].Corner(k) < |verts| && used[best] && !tris[best].Degenerate()
    ensures var v := tris[best].Corner(k);
            (if verts[v].uses != [] then [v] else []) + Without(cache, v) == Touch(tris, order, cache, v)
  {
    hide Without, Open, NoDup;
    var v := tris[best].Corner(k);
    forall t: nat
      ensures t in verts[v].uses <==> t in Open(tris, order, v)
    {
      assert t in verts[v].uses <==> InUse(tris, used, best, k + 1, t, v);
      assert t in order <==> Drawn(tris, used, t);
    }
    SameEmptiness(verts[v].uses, Open(tris, order, v));
  }

  lemma SameEmptiness(s: seq<nat>, t: seq<nat>)
    requires forall x: nat :: x in s <==> x in t
    ensures s == [] <==> t == []
  {
    assert s != [] ==> s[0] in s;
    assert t != [] ==> t[0] in t;
  }

  /** Use lists are the triangles still to come. */
  lemma UsesAreOpen(tris: seq<Triangle>, used: seq<bool>, verts: seq<Vertex>, order: seq<nat>, v: nat)
    requires UsesOk(tris, used, verts, -1, 0) && OrderOk(tris, used, order) && v < |verts|
    ensures forall t: nat :: t in verts[v].uses <==> t in Open(tris, order, v)
    ensures |verts[v].uses| == |Open(tris, order, v)|
    ensures forall t: nat :: IsUnused(used, t) <==> IsOpen(tris, order, t)
  {
    forall t: nat
      ensures t in verts[v].uses <==> t in Open(tris, order, v)
      ensures IsUnused(used, t) <==> IsOpen(tris, order, t)
    {
      assert t in verts[v].uses <==> InUse(tris, used, -1, 0, t, v);
      assert t in order <==> Drawn(tris, used, t);
    }
    OpenDistinct(tris, order, v, |tris|);
    hide Open, OpenBelow;
    SameLength(verts[v].uses, Open(tris, order, v));
  }

  lemma SizesAgree(verts: seq<Vertex>, mmap: seq<SharedVert>, vmap: seq<SharedVert>, base: nat, added: seq<nat>)
    requires VmapOk(verts, mmap, vmap, base, added)
    ensures |verts| == |mmap|
  {
  }

  lemma DrawnNext(tris: seq<Triangle>, used: seq<bool>, order: seq<nat>, best: nat)
    requires OrderOk(tris, used, order) && best < |tris| && !used[best]
    ensures OrderOk(tris, used[best := true], order + [best]) && !tris[best].Degenerate()
  {
    var now := used[best := true];
    assert !Drawn(tris, used, best);
    NoDupMore(order, best);
    forall t: nat
      ensures t in order + [best] <==> Drawn(tris, now, t)
    {
      assert t in order <==> Drawn(tris, used, t);
    }
  }

  lemma StartCorners(tris: seq<Triangle>, used: seq<bool>, verts: seq<Vertex>, best: nat)
    requires UsesOk(tris, used, verts, -1, 0) && best < |tris| && !used[best]
    ensures UsesOk(tris, used[best := true], verts, best, 0)
  {
    SameInUse(tris, used, -1, 0, used[best := true], best, 0, verts);
  }

  lemma CornersDone(tris: seq<Triangle>, used: seq<bool>, verts: seq<Vertex>, best: nat)
    requires UsesOk(tris, used, verts, best, 3)
    ensures UsesOk(tris, used, verts, -1, 0)
  {
    SameInUse(tris, used, best, 3, used, -1, 0, verts);
  }

  lemma SameInUse(tris: seq<Triangle>, was: seq<bool>, b: int, k: nat, now: seq<bool>, c: int, l: nat,
                  verts: seq<Vertex>)
    requires |was| == |now| == |tris| && UsesOk(tris, was, verts, b, k)
    requires forall t: nat, v: nat :: InUse(tris, was, b, k, t, v) == InUse(tris, now, c, l, t, v)
    ensures UsesOk(tris, now, verts, c, l)
  {
    hide InUse;
  }

  lemma NoCorners(tri: Triangle, verts: seq<Vertex>, out: Triangle)
    ensures CornersOk(tri, verts, out, 0)
  {
  }

  lemma NothingNumbered(verts: seq<Vertex>)
    ensures Numbered(verts, verts) && SameScore(verts, verts)
  {
  }

  lemma NumberedTwice(a: seq<Vertex>, b: seq<Vertex>, c: seq<Vertex>)
    requires Numbered(a, b) && Numbered(b, c) && SameScore(a, b) && SameScore(b, c)
    ensures Numbered(a, c) && SameScore(a, c)
  {
  }

  lemma AddedLater(tris: seq<Triangle>, added: seq<nat>, order: seq<nat>, best: nat)
    requires AddedOk(tris, added, order)
    ensures AddedOk(tris, added, order + [best])
  {
    forall v | v in added
      ensures exists t :: t in order + [best] && t < |tris| && tris[t].Has(v)
    {
      var t :| t in order && t < |tris| && tris[t].Has(v);
      assert t in order + [best];
    }
  }

  lemma CornerAdded(tris: seq<Triangle>, had: seq<nat>, added: seq<nat>, order: seq<nat>, best: nat, k: nat)
    requires k < 3 && best < |tris| && best in order && AddedOk(tris, had, order)
    requires added == had || added == had + [tris[best].Corner(k)]
    ensures AddedOk(tris, added, order)
  {
    assert tris[best].Has(tris[best].Corner(k));
  }

  lemma OutMore(tris: seq<Triangle>, was: seq<Vertex>, now: seq<Vertex>, out: seq<Triangle>, more: seq<Triangle>,
                base: nat, order: seq<nat>, best: nat)
    requires OutOk(tris, was, out, base, order) && Numbered(was, now) && best < |tris|
    requires |more| == |out| + 1 && more[..|out|] == out && CornersOk(tris[best], now, more[|out|], 3)
    ensures OutOk(tris, now, more, base, order + [best])
  {
    forall i | 0 <= i < |order|
      ensures CornersOk(tris[order[i]], now, more[base + i], 3)
    {
      assert more[base + i] == out[base + i];
    }
  }

  lemma UsesAreDistinct(tris: seq<Triangle>, used: seq<bool>, verts: seq<Vertex>, best: int, k: nat, v: nat)
    requires UsesOk(tris, used, verts, best, k) && v < |verts|
    ensures NoDup(verts[v].uses)
  {
  }

  // ---------- The whole mesh ----------

  /** The vertices of the triangles in `order` have been added to the map, each once, after `vmap0`. */
  ghost predicate MapExact(tris: seq<Triangle>, mmap: seq<SharedVert>, vmap0: seq<SharedVert>, vmap: seq<SharedVert>,
                           order: seq<nat>, added: seq<nat>) {
    && |vmap| == |vmap0| + |added| && vmap0 <= vmap && NoDup(added)
    && (forall j :: 0 <= j < |added| ==> added[j] < |mmap| && vmap[|vmap0| + j] == mmap[added[j]])
    && forall v :: v in added <==> Needed(tris, order, v)
  }

  ghost predicate Needed(tris: seq<Triangle>, order: seq<nat>, v: nat) {
    exists t :: t in order && t < |tris| && tris[t].Has(v)
  }

  predicate Proper(tris: seq<Triangle>, t: nat) {
    t < |tris| && !tris[t].Degenerate()
  }

  /** Exactly the triangles that are not degenerate. */
  ghost predicate AllEmitted(tris: seq<Triangle>, order: seq<nat>) {
    forall t :: t in order <==> Proper(tris, t)
  }

  lemma {:induction false} FewerLeft(used: seq<bool>, t: nat)
    requires IsUnused(used, t)
    ensures |Unused(used[t := true])| < |Unused(used)|
  {
    var n := |used| - 1;
    var now := used[t := true];
    if t < n {
      FewerLeft(used[..n], t);
      assert now[..n] == used[..n][t := true];
    } else {
      assert now[..n] == used[..n];
    }
  }

  lemma MapIsExact(tris: seq<Triangle>, verts: seq<Vertex>, mmap: seq<SharedVert>, vmap0: seq<SharedVert>,
                   vmap: seq<SharedVert>, out: seq<Triangle>, base: nat, order: seq<nat>, added: seq<nat>)
    requires ValidTris(tris, |verts|) && vmap0 <= vmap && VmapOk(verts, mmap, vmap, |vmap0|, added)
    requires OutOk(tris, verts, out, base, order) && AddedOk(tris, added, order)
    ensures MapExact(tris, mmap, vmap0, vmap, order, added)
  {
    forall v | v in added
      ensures Needed(tris, order, v)
    {
    }
    forall v: nat | Needed(tris, order, v)
      ensures v in added
    {
      var t :| t in order && t < |tris| && tris[t].Has(v);
      var i :| 0 <= i < |order| && order[i] == t;
      var k := if v == tris[t].a then 0 else if v == tris[t].b then 1 else 2;
      assert CornersOk(tris[order[i]], verts, out[base + i], 3);
      assert tris[t].Corner(k) == v && verts[v].index >= 0;
    }
  }

  lemma OrderIsEmitted(tris: seq<Triangle>, used: seq<bool>, verts: seq<Vertex>, mmap: seq<SharedVert>,
                       vmap0: seq<SharedVert>, vmap: seq<SharedVert>, out0: seq<Triangle>, out: seq<Triangle>,
                       order: seq<nat>, added: seq<nat>)
    requires vmap0 <= vmap && out0 <= out && VmapOk(verts, mmap, vmap, |vmap0|, added)
    requires OutOk(tris, verts, out, |out0|, order) && OrderOk(tris, used, order)
    ensures Emitted(tris, mmap, vmap0, out0, vmap, out, order)
  {
    forall i | 0 <= i < |order|
      ensures order[i] < |tris| && EmittedAs(tris[order[i]], mmap, |vmap0|, vmap, out[|out0| + i])
    {
      assert order[i] in order;
      assert Drawn(tris, used, order[i]);
      assert CornersOk(tris[order[i]], verts, out[|out0| + i], 3);
    }
  }

  /**
   * maketriangles: every triangle that is not degenerate comes out exactly once, with its corners in order,
   * and every vertex they use joins the map exactly once, whatever real scores above the floor are used. With
   * the source's scores that is so exactly if the cache never holds a vertex beyond rank 32 when it is scored,
   * which the mesh determines by `OrderOf`. In every case nothing comes out twice or wrong, and what is left
   * over had no score above the floor.
   */
  method MakeTriangles(tris: seq<Triangle>, mmap: seq<SharedVert>, f: Scoring, vmap0: seq<SharedVert>,
                       triangles0: seq<Triangle>)
    returns (vmap: seq<SharedVert>, triangles: seq<Triangle>, tscore: seq<Score>, ghost order: seq<nat>,
             ghost added: seq<nat>)
    requires ValidTris(tris, |mmap|)
    ensures Emitted(tris, mmap, vmap0, triangles0, vmap, triangles, order)
    ensures MapExact(tris, mmap, vmap0, vmap, order, added)
    ensures |tscore| == |tris|
    ensures forall t :: 0 <= t < |tris| && t !in order ==> tris[t].Degenerate() || !Above(tscore[t], FLOOR)
    ensures order == OrderOf(tris, f) && Greedy(tris, f, order) && Exhausted(tris, f, order)
    ensures GoodScoring(f) ==> AllEmitted(tris, order)
    ensures SourceScoring(f) ==> (AllEmitted(tris, order) <==> !Overfull(tris, OrderOf(tris, f)))
    ensures SourceScoring(f) && |mmap| <= MAXVCACHE + 1 ==> AllEmitted(tris, order)
  {
    hide UsesOk, CacheOk, VmapOk, OrderOk, OutOk, AddedOk, ValidTris, Best, Emitted, MapExact, ScoresOk, GoodScoring,
         SourceScoring, Unused, Overfull, Greedy, Exhausted, Choice, ScoresTracked, Cached, Trimmed, AllEmitted,
         UsesTracked, TrisTracked, NextOf, Follows;
    var m := new Optimiser(tris, mmap, f, vmap0, triangles0);
    var best := m.FirstBest();
    while best >= 0
      invariant m.Valid() && fresh(m)
      invariant m.Chosen(best)
      decreases |Unused(m.used)|
    {
      FewerLeft(m.used, best);
      best := m.Step(best);
    }
    vmap, triangles, tscore, order, added := m.vmap, m.triangles, m.tscore, m.order, m.added;
    OrderInRange(tris, m.used, order);
    assert order[..0] == [];
    FollowedOrder(tris, f, order, 0);
    OrderIsEmitted(tris, m.used, m.verts, mmap, vmap0, vmap, triangles0, triangles, order, added);
    MapIsExact(tris, m.verts, mmap, vmap0, vmap, triangles, |triangles0|, order, added);
    LeftOver(tris, m.used, m.verts, tscore, order, GoodScoring(f) || (SourceScoring(f) && m.stuck < 0));
    if SourceScoring(f) && m.stuck >= 0 {
      StuckIsLost(tris, m.used, m.verts, m.cache, tscore, order, m.stuck);
    }
    if |mmap| <= MAXVCACHE + 1 {
      SmallMesh(tris, order, |mmap|);
    }
  }

  lemma OrderInRange(tris: seq<Triangle>, used: seq<bool>, order: seq<nat>)
    requires OrderOk(tris, used, order)
    ensures |order| <= |tris|
  {
    forall t | t in order
      ensures t < |tris|
    {
      assert Drawn(tris, used, t);
    }
    DistinctBelow(order, |tris|);
  }

  lemma SmallMesh(tris: seq<Triangle>, order: seq<nat>, n: nat)
    requires ValidTris(tris, n) && n <= MAXVCACHE + 1
    ensures !Overfull(tris, order)
  {
    SmallNeverOverfull(tris, order, n);
  }

  /** The triangles of a stuck vertex were not emitted. */
  lemma StuckIsLost(tris: seq<Triangle>, used: seq<bool>, verts: seq<Vertex>, cache: seq<nat>, tscore: seq<Score>,
                    order: seq<nat>, stuck: nat)
    requires UsesOk(tris, used, verts, -1, 0) && OrderOk(tris, used, order) && Stuck(verts, cache, tscore, stuck)
    ensures !AllEmitted(tris, order)
  {
    var t := verts[stuck].uses[0];
    assert t in verts[stuck].uses;
    assert InUse(tris, used, -1, 0, t, stuck);
    assert !Drawn(tris, used, t) && Proper(tris, t);
  }

  lemma LeftOver(tris: seq<Triangle>, used: seq<bool>, verts: seq<Vertex>, tscore: seq<Score>, order: seq<nat>,
                 good: bool)
    requires |tscore| == |used| == |tris| && OrderOk(tris, used, order) && Best(-1, tscore, Unused(used))
    requires good ==> ScoresOk(used, verts, tscore)
    ensures forall t :: 0 <= t < |tris| && t !in order ==> tris[t].Degenerate() || !Above(tscore[t], FLOOR)
    ensures good ==> AllEmitted(tris, order)
  {
    forall t | 0 <= t < |tris| && t !in order && !tris[t].Degenerate()
      ensures t in Unused(used) && !good
    {
      assert !Drawn(tris, used, t);
      assert IsUnused(used, t);
    }
    forall t: nat
      ensures t in order ==> Proper(tris, t)
    {
      assert t in order <==> Drawn(tris, used, t);
    }
  }
}
