/**
 * Bone weights of a vertex (iqm/iqm.cpp): blendcombo keeps the four largest weights, scales them to a sum of
 * one, and writes them as bytes that sum to 255. Weights are reals.
 */
module BlendCombo {
  datatype Weight = Weight(w: real, bone: int)

  const SMALLEST: real := 0.001
  const MAX_WEIGHTS: nat := 4

  /** A weight goes before the first smaller one. */
  function Insert(s: seq<Weight>, x: Weight): (r: seq<Weight>)
    ensures |r| == |s| + 1
  {
    if s == [] then [x]
    else if x.w > s[0].w then [x] + s
    else [s[0]] + Insert(s[1..], x)
  }

  function AtMost(s: seq<Weight>, n: nat): seq<Weight> {
    if |s| <= n then s else s[..n]
  }

  /** What addweight makes of the weights it has. */
  function Added(s: seq<Weight>, w: real, bone: int): seq<Weight> {
    if w <= SMALLEST then s else AtMost(Insert(s, Weight(w, bone % 0x100)), MAX_WEIGHTS)
  }

  function AddedAll(items: seq<(real, int)>): seq<Weight> {
    if items == [] then []
    else
      var n := |items| - 1;
      Added(AddedAll(items[..n]), items[n].0, items[n].1)
  }

  // ---------- The four largest ----------

  /** All weights above the smallest, sorted; of equal ones the earlier comes first. */
  function Sorted(items: seq<(real, int)>): seq<Weight> {
    if items == [] then []
    else
      var n := |items| - 1;
      var s := Sorted(items[..n]);
      if items[n].0 <= SMALLEST then s else Insert(s, Weight(items[n].0, items[n].1 % 0x100))
  }

  /** The weights that count, in the order in which they were added. */
  function Accepted(items: seq<(real, int)>): seq<Weight> {
    if items == [] then []
    else
      var n := |items| - 1;
      Accepted(items[..n])
      + if items[n].0 <= SMALLEST then [] else [Weight(items[n].0, items[n].1 % 0x100)]
  }

  /** Exactly the weights above a thousandth count, each with the low byte of its bone. */
  lemma {:induction false} AcceptedExactly(items: seq<(real, int)>, x: Weight)
    ensures x in Accepted(items) <==> exists i :: 0 <= i < |items| && Counts(items[i], x)
  {
    if items != [] {
      var front, last := items[..|items| - 1], items[|items| - 1];
      AcceptedExactly(front, x);
      hide Counts;
      if i :| 0 <= i < |items| && Counts(items[i], x) {
        assert i < |front| ==> front[i] == items[i];
      }
      if i :| 0 <= i < |front| && Counts(front[i], x) {
        assert Counts(items[i], x);
      }
      assert x in Accepted(items) <==> x in Accepted(front) || Counts(last, x) by { LastCounts(items, x); }
    }
  }

  predicate Counts(item: (real, int), x: Weight) {
    item.0 > 0.001 && x == Weight(item.0, item.1 % 256)
  }

  lemma LastCounts(items: seq<(real, int)>, x: Weight)
    requires items != []
    ensures x in Accepted(items) <==> x in Accepted(items[..|items| - 1]) || Counts(items[|items| - 1], x)
  {
  }

  ghost predicate Descending(s: seq<Weight>) {
    forall i, j :: 0 <= i < j < |s| ==> s[i].w >= s[j].w
  }

  lemma {:induction false} InsertKeeps(s: seq<Weight>, x: Weight)
    ensures multiset(Insert(s, x)) == multiset(s) + multiset{x}
  {
    if s != [] {
      assert s == [s[0]] + s[1..];
      if x.w <= s[0].w {
        InsertKeeps(s[1..], x);
      }
    }
  }

  lemma {:induction false} InsertSorts(s: seq<Weight>, x: Weight)
    requires Descending(s)
    ensures Descending(Insert(s, x))
  {
    if s != [] && x.w <= s[0].w {
      var t := Insert(s[1..], x);
      InsertSorts(s[1..], x);
      InsertKeeps(s[1..], x);
      forall i | 0 <= i < |t|
        ensures t[i].w <= s[0].w
      {
        InMultiset(t, s[1..], x, i);
      }
    }
  }

  lemma InMultiset(t: seq<Weight>, s: seq<Weight>, x: Weight, i: nat)
    requires multiset(t) == multiset(s) + multiset{x} && i < |t|
    ensures t[i] == x || t[i] in s
  {
    assert t[i] in multiset(t);
  }

  lemma {:induction false} SortedIsSorted(items: seq<(real, int)>)
    ensures Descending(Sorted(items)) && multiset(Sorted(items)) == multiset(Accepted(items))
  {
    if items != [] {
      SortedIsSorted(items[..|items| - 1]);
      var s, x := Sorted(items[..|items| - 1]), items[|items| - 1];
      InsertSorts(s, Weight(x.0, x.1 % 0x100));
      InsertKeeps(s, Weight(x.0, x.1 % 0x100));
    }
  }

  /** Dropping all but `n` weights early makes no difference. */
  lemma {:induction false} InsertCut(s: seq<Weight>, x: Weight, n: nat)
    ensures AtMost(Insert(AtMost(s, n), x), n) == AtMost(Insert(s, x), n)
  {
    if |s| > n && n > 0 && x.w <= s[0].w {
      InsertCut(s[1..], x, n - 1);
      assert s[..n][1..] == s[1..][..n - 1];
      var a, b := Insert(s[..n], x), Insert(s, x);
      assert a[..n] == [s[0]] + Insert(s[1..][..n - 1], x)[..n - 1];
      assert b[..n] == [s[0]] + Insert(s[1..], x)[..n - 1];
    }
  }

  /**
   * Over any sequence of additions the combination holds the first four of all weights sorted in descending
   * order: the four largest, and of equal ones the earlier.
   */
  lemma {:induction false} KeepsFourLargest(items: seq<(real, int)>)
    ensures AddedAll(items) == AtMost(Sorted(items), MAX_WEIGHTS)
    ensures Descending(Sorted(items)) && multiset(Sorted(items)) == multiset(Accepted(items))
  {
    SortedIsSorted(items);
    if items != [] {
      var n := |items| - 1;
      KeepsFourLargest(items[..n]);
      InsertCut(Sorted(items[..n]), Weight(items[n].0, items[n].1 % 0x100), MAX_WEIGHTS);
    }
  }

  // ---------- Bytes ----------

  function Sum(w: seq<real>): real {
    if w == [] then 0.0 else Sum(w[..|w| - 1]) + w[|w| - 1]
  }

  lemma SumMore(w: seq<real>)
    requires w != []
    ensures Sum(w) == Sum(w[..|w| - 1]) + w[|w| - 1]
  {
  }

  lemma Sum4(w: seq<real>)
    requires |w| == 4
    ensures Sum(w) == w[0] + w[1] + w[2] + w[3]
  {
    SumMore(w[..1]);
    SumMore(w[..2]);
    SumMore(w[..3]);
    SumMore(w);
    assert w[..3][..2] == w[..2] && w[..2][..1] == w[..1] && w[..1][..0] == [];
  }

  /** The byte for a weight before the correction of the sum. */
  function Rounded(w: real): int {
    (0.5 + w * 255.0).Floor
  }

  ghost predicate Unit(w: seq<real>) {
    |w| == 4 && Sum(w) == 1.0 && forall k :: 0 <= k < 4 ==> w[k] >= 0.0
  }

  /** The rounded bytes miss the sum by one below at most, and by two above. */
  lemma RoundedSum(w: seq<real>)
    requires Unit(w)
    ensures 254 <= Rounded(w[0]) + Rounded(w[1]) + Rounded(w[2]) + Rounded(w[3]) <= 257
    ensures forall k :: 0 <= k < 4 ==> 0 <= Rounded(w[k]) <= 255
    ensures forall k :: 0 <= k < 4 ==> -0.5 <= Rounded(w[k]) as real - w[k] * 255.0 <= 0.5
    ensures forall k :: 0 <= k < 4 && w[k] == 0.0 ==> Rounded(w[k]) == 0
  {
    Sum4(w);
  }

  /** The bytes that are written: they sum to 255, each within 3/2 of its share, and nothing comes of nothing. */
  ghost predicate Shares(w: seq<real>, v: seq<int>) {
    && |w| == |v| == 4 && v[0] + v[1] + v[2] + v[3] == 255
    && forall k :: 0 <= k < 4 ==>
         && 0 <= v[k] <= 255 && -1.5 <= v[k] as real - 255.0 * w[k] <= 1.5
         && (w[k] == 0.0 ==> v[k] == 0)
  }

  // ---------- The implementation ----------

  lemma {:induction false} InsertAt(s: seq<Weight>, x: Weight, k: nat)
    requires k <= |s| && (forall j :: 0 <= j < k ==> x.w <= s[j].w) && (k < |s| ==> x.w > s[k].w)
    ensures Insert(s, x) == s[..k] + [x] + s[k..]
  {
    if k > 0 {
      InsertAt(s[1..], x, k - 1);
      assert s[1..][..k - 1] == s[1..k] && s[1..][k - 1..] == s[k..];
    }
  }

  lemma PutContents(w: seq<real>, b: seq<int>, v: seq<real>, c: seq<int>, n: nat, k: nat)
    requires |w| == |b| == |v| == |c| == 4 && k < n <= 4
    requires forall j :: 0 <= j < k ==> v[j] == w[j] && c[j] == b[j]
    requires forall j :: k < j <= n && j < 4 ==> v[j] == w[j - 1] && c[j] == b[j - 1]
    ensures var s, m := Zip(w[..n], b[..n]), if n < 4 then n + 1 else 4;
            Zip(v[..m], c[..m]) == AtMost(s[..k] + [Weight(v[k], c[k])] + s[k..], MAX_WEIGHTS)
  {
    hide Zip;
    var s, m := Zip(w[..n], b[..n]), if n < 4 then n + 1 else 4;
    var r := s[..k] + [Weight(v[k], c[k])] + s[k..];
    forall j | 0 <= j < m
      ensures Zip(v[..m], c[..m])[j] == r[j]
    {
    }
  }

  lemma AtTheEnd(s: seq<Weight>, x: Weight)
    ensures |s| == MAX_WEIGHTS ==> AtMost(s[..|s|] + [x] + s[|s|..], MAX_WEIGHTS) == s
    ensures |s| < MAX_WEIGHTS ==> AtMost(s[..|s|] + [x] + s[|s|..], MAX_WEIGHTS) == s + [x]
  {
  }

  function Zip(w: seq<real>, b: seq<int>): (s: seq<Weight>)
    requires |w| == |b|
    ensures |s| == |w| && forall k :: 0 <= k < |w| ==> s[k] == Weight(w[k], b[k])
  {
    seq(|w|, k requires 0 <= k < |w| => Weight(w[k], b[k]))
  }

  class Combo {
    var sorted: nat
    const weights: array<real>
    const bones: array<int>

    ghost predicate Valid()
      reads this, weights
    {
      && sorted <= weights.Length == bones.Length == MAX_WEIGHTS
      && forall k :: 0 <= k < sorted ==> weights[k] > SMALLEST
    }

    ghost function Contents(): (s: seq<Weight>)
      requires Valid()
      reads this, weights, bones
      ensures |s| == sorted && forall k :: 0 <= k < sorted ==> s[k] == Weight(weights[k], bones[k])
    {
      Zip(weights[..sorted], bones[..sorted])
    }

    constructor ()
      ensures Valid() && Contents() == [] && fresh(weights) && fresh(bones)
    {
      sorted := 0;
      weights := new real[MAX_WEIGHTS];
      bones := new int[MAX_WEIGHTS];
    }

    method Reset()
      requires weights.Length == bones.Length == MAX_WEIGHTS
      modifies this`sorted
      ensures Valid() && Contents() == []
    {
      sorted := 0;
    }

    /** Makes room at `k`; the fourth weight is lost. */
    method ShiftFrom(k: nat)
      requires Valid() && k < sorted
      modifies weights, bones
      ensures forall j :: 0 <= j <= k ==> weights[j] == old(weights[j]) && bones[j] == old(bones[j])
      ensures forall j :: k < j <= sorted && j < 4 ==>
                weights[j] == old(weights[j - 1]) && bones[j] == old(bones[j - 1])
    {
      var l := if sorted - 1 < 2 then sorted - 1 else 2;
      while l >= k
        invariant k - 1 <= l < sorted && l <= 2 && (l < 2 ==> l < sorted)
        invariant forall j :: 0 <= j <= l || 0 <= j <= k ==> weights[j] == old(weights[j]) && bones[j] == old(bones[j])
        invariant forall j :: l + 1 < j <= sorted && j < 4 ==>
                    weights[j] == old(weights[j - 1]) && bones[j] == old(bones[j - 1])
        decreases l + 1
      {
        weights[l + 1] := weights[l];
        bones[l + 1] := bones[l];
        l := l - 1;
      }
    }

    /** Puts a weight at `k`, before the ones that follow. */
    method PutAt(k: nat, weight: real, bone: int)
      requires Valid() && k < sorted && weight > SMALLEST
      modifies this`sorted, weights, bones
      ensures Valid()
      ensures var s := old(Contents());
              Contents() == AtMost(s[..k] + [Weight(weight, bone % 0x100)] + s[k..], MAX_WEIGHTS)
    {
      hide AtMost, Zip;
      ghost var w, b, n := weights[..], bones[..], sorted;
      ShiftFrom(k);
      weights[k] := weight;
      bones[k] := bone % 0x100;
      if sorted < 4 {
        sorted := sorted + 1;
      }
      PutContents(w, b, weights[..], bones[..], n, k);
      assert weights[..][..sorted] == weights[..sorted] && bones[..][..sorted] == bones[..sorted];
      assert w[..n] == old(weights[..sorted]) && b[..n] == old(bones[..sorted]);
    }

    method AddWeight(weight: real, bone: int)
      requires Valid()
      modifies this`sorted, weights, bones
      ensures Valid() && Contents() == Added(old(Contents()), weight, bone)
    {
      hide Insert, AtMost;
      if weight <= SMALLEST {
        return;
      }
      ghost var s, x := Contents(), Weight(weight, bone % 0x100);
      for k := 0 to sorted
        invariant Valid() && Contents() == s
        invariant forall j :: 0 <= j < k ==> weight <= weights[j]
      {
        if weight > weights[k] {
          InsertAt(s, x, k);
          PutAt(k, weight, bone);
          return;
        }
      }
      InsertAt(s, x, sorted);
      AtTheEnd(s, x);
      if sorted >= 4 {
        return;
      }
      weights[sorted] := weight;
      bones[sorted] := bone % 0x100;
      sorted := sorted + 1;
      assert Contents() == s + [x];
    }

    /** The unused weights become zero. */
    method ZeroRest()
      requires Valid()
      modifies weights, bones
      ensures Valid() && weights[..sorted] == old(weights[..sorted]) && bones[..sorted] == old(bones[..sorted])
      ensures forall k :: sorted <= k < 4 ==> weights[k] == 0.0 && bones[k] == 0
    {
      for j := 0 to 4 - sorted
        invariant forall k :: sorted <= k < sorted + j ==> weights[k] == 0.0 && bones[k] == 0
        invariant weights[..sorted] == old(weights[..sorted]) && bones[..sorted] == old(bones[..sorted])
      {
        weights[sorted + j] := 0.0;
        bones[sorted + j] := 0;
      }
    }

    method TotalWeight() returns (total: real)
      requires Valid()
      ensures total == Sum(weights[..sorted]) && (sorted > 0 ==> total > 0.0)
    {
      hide Sum;
      total := 0.0;
      assert Sum([]) == 0.0 by { NoSum(); }
      ghost var w := weights[..sorted];
      for j := 0 to sorted
        invariant total == Sum(w[..j]) && total >= 0.0 && (j > 0 ==> total > 0.0)
      {
        SumMore(w[..j + 1]);
        assert w[..j + 1][..j] == w[..j];
        total := total + weights[j];
      }
      assert w[..sorted] == w;
    }

    /** Scales the weights to a sum of one, in proportion; unused weights are zero. */
    method Finalize()
      requires Valid()
      modifies weights, bones
      ensures bones[..sorted] == old(bones[..sorted]) && forall k :: sorted <= k < 4 ==> bones[k] == 0
      ensures sorted == 0 ==> weights[..] == Zeros(4)
      ensures sorted > 0 ==> Unit(weights[..]) && weights[0] > 0.0
      ensures sorted > 0 ==> Sum(old(weights[..sorted])) > 0.0
      ensures sorted > 0 ==>
                weights[..] == Scaled(old(weights[..sorted]), 1.0 / Sum(old(weights[..sorted]))) + Zeros(4 - sorted)
    {
      hide Sum, Scaled, Unit, Times;
      ghost var w := weights[..sorted];
      ZeroRest();
      if sorted <= 0 {
        return;
      }
      var total := TotalWeight();
      Inverse(total);
      total := 1.0 / total;
      for j := 0 to sorted
        invariant weights[..j] == Scaled(w, total)[..j] && weights[j..sorted] == w[j..]
        invariant bones[..sorted] == old(bones[..sorted])
        invariant forall k :: sorted <= k < 4 ==> weights[k] == 0.0 && bones[k] == 0
      {
        ghost var front, back := weights[..j], weights[j + 1..sorted];
        assert back == weights[j..sorted][1..] == w[j..][1..] == w[j + 1..];
        assert weights[j] == weights[j..sorted][0] == w[j];
        weights[j] := Times(weights[j], total);
        assert weights[..j + 1] == front + [Scaled(w, total)[j]];
        assert weights[j + 1..sorted] == back;
      }
      assert weights[..sorted] == Scaled(w, total);
      assert weights[..] == Scaled(w, total) + Zeros(4 - sorted);
      ScaledIsUnit(w, total, 4 - sorted);
    }

    /** Writes the weights as bytes; without weights all bytes are zero. */
    method Serialize(vweights: array<int>)
      requires sorted <= weights.Length == vweights.Length == 4 && vweights != bones
      requires if sorted > 0 then Unit(weights[..]) && weights[0] > 0.0
               else forall k :: 0 <= k < 4 ==> weights[k] == 0.0
      modifies vweights
      ensures if sorted > 0 then Shares(weights[..], vweights[..]) else vweights[..] == [0, 0, 0, 0]
    {
      hide Rounded, Unit, Shares;
      var total := 0;
      ghost var w := weights[..];
      ghost var r := [Rounded(w[0]), Rounded(w[1]), Rounded(w[2]), Rounded(w[3])];
      for k := 0 to 4
        invariant forall j :: 0 <= j < k ==> vweights[j] == r[j]
        invariant total == Total(r[..k])
      {
        vweights[k] := Rounded(weights[k]);
        assert r[..k + 1][..k] == r[..k];
        total := total + vweights[k];
      }
      assert vweights[..] == r && r[..4] == r;
      Total4(r);
      if sorted <= 0 {
        RoundedZero();
        return;
      }
      RoundedSum(w);
      if total > 255 {
        Lower(vweights, total);
        LoweredShares(w, r, vweights[..]);
        return;
      }
      if total < 255 {
        Raise(vweights, total);
        RaisedShares(w, r, vweights[..]);
        return;
      }
      EvenShares(w, r);
    }
  }

  function Total(v: seq<int>): int {
    if v == [] then 0 else Total(v[..|v| - 1]) + v[|v| - 1]
  }

  lemma TotalMore(v: seq<int>)
    requires v != []
    ensures Total(v) == Total(v[..|v| - 1]) + v[|v| - 1]
  {
  }

  lemma Total4(v: seq<int>)
    requires |v| == 4
    ensures Total(v) == v[0] + v[1] + v[2] + v[3]
  {
    TotalMore(v[..1]);
    TotalMore(v[..2]);
    TotalMore(v[..3]);
    TotalMore(v);
    assert v[..3][..2] == v[..2] && v[..2][..1] == v[..1] && v[..1][..0] == [];
  }

  lemma RoundedZero()
    ensures Rounded(0.0) == 0
  {
  }

  function Times(a: real, c: real): real {
    a * c
  }

  function Scaled(w: seq<real>, c: real): (r: seq<real>)
    ensures |r| == |w| && forall k :: 0 <= k < |w| ==> r[k] == Times(w[k], c)
  {
    seq(|w|, k requires 0 <= k < |w| => Times(w[k], c))
  }

  lemma ScaledFront(w: seq<real>, c: real, n: nat)
    requires n <= |w|
    ensures Scaled(w, c)[..n] == Scaled(w[..n], c)
  {
    forall k | 0 <= k < n
      ensures Scaled(w, c)[k] == Scaled(w[..n], c)[k]
    {
      assert w[..n][k] == w[k];
    }
  }

  lemma {:induction false} ScaledSum(w: seq<real>, c: real)
    ensures Sum(Scaled(w, c)) == Times(Sum(w), c)
  {
    hide Times;
    if w != [] {
      var n := |w| - 1;
      ScaledSum(w[..n], c);
      ScaledFront(w, c, n);
      TimesSum(Sum(w[..n]), w[n], c);
    } else {
      TimesSum(0.0, 0.0, c);
    }
  }

  lemma TimesSum(a: real, b: real, c: real)
    ensures Times(a + b, c) == Times(a, c) + Times(b, c) && Times(0.0, c) == 0.0
  {
  }

  lemma NoSum()
    ensures Sum([]) == 0.0
  {
  }

  function Zeros(n: nat): (r: seq<real>)
    ensures |r| == n && forall k :: 0 <= k < n ==> r[k] == 0.0
  {
    seq(n, _ => 0.0)
  }

  lemma {:induction false} PaddedSum(w: seq<real>, n: nat)
    ensures Sum(w + Zeros(n)) == Sum(w)
  {
    var z := w + Zeros(n);
    if n > 0 {
      PaddedSum(w, n - 1);
      assert z[..|z| - 1] == w + Zeros(n - 1);
    } else {
      assert z == w;
    }
  }

  lemma Inverse(x: real)
    requires x > 0.0
    ensures Times(x, 1.0 / x) == 1.0 && 1.0 / x > 0.0
  {
  }

  /** Positive weights are scaled to a sum of one. */
  lemma ScaledIsUnit(w: seq<real>, c: real, n: nat)
    requires w != [] && |w| + n == 4 && Times(Sum(w), c) == 1.0 && c > 0.0 && forall k :: 0 <= k < |w| ==> w[k] > 0.0
    ensures var r := Scaled(w, c) + Zeros(n); Unit(r) && r[0] > 0.0
  {
    hide Sum, Times, Scaled;
    ScaledSum(w, c);
    PaddedSum(Scaled(w, c), n);
    forall k | 0 <= k < |w|
      ensures Scaled(w, c)[k] > 0.0
    {
      Positive(w[k], c);
    }
  }

  lemma Positive(a: real, b: real)
    requires a > 0.0 && b > 0.0
    ensures Times(a, b) > 0.0
  {
  }

  /** Takes one from the first positive bytes until the sum is right. */
  method Lower(v: array<int>, sum: int)
    requires v.Length == 4 && sum == v[0] + v[1] + v[2] + v[3] && 255 < sum <= 257
    requires forall k :: 0 <= k < 4 ==> 0 <= v[k] <= 255
    modifies v
    ensures v[0] + v[1] + v[2] + v[3] == 255
    ensures forall k :: 0 <= k < 4 ==> 0 <= v[k] && old(v[k]) - 1 <= v[k] <= old(v[k])
  {
    var total := sum;
    ghost var r := v[..];
    while total > 255
      invariant total == v[0] + v[1] + v[2] + v[3] && total >= 255
      invariant if total > 255 then v[..] == r else forall k :: 0 <= k < 4 ==> 0 <= v[k] && r[k] - 1 <= v[k] <= r[k]
      decreases total
    {
      for k := 0 to 4
        invariant 255 <= total == v[0] + v[1] + v[2] + v[3]
        invariant forall j :: k <= j < 4 ==> v[j] == r[j]
        invariant forall j :: 0 <= j < k ==> 0 <= v[j] && r[j] - 1 <= v[j] <= r[j]
        invariant total > 255 ==> forall j :: 0 <= j < k ==> v[j] == if r[j] > 0 then r[j] - 1 else 0
      {
        if v[k] > 0 && total > 255 {
          v[k] := v[k] - 1;
          total := total - 1;
        }
      }
    }
  }

  /** Adds one to the first byte, which is enough. */
  method Raise(v: array<int>, sum: int)
    requires v.Length == 4 && sum == v[0] + v[1] + v[2] + v[3] == 254
    requires forall k :: 0 <= k < 4 ==> 0 <= v[k] <= 255
    modifies v
    ensures v[0] == old(v[0]) + 1 && forall k :: 1 <= k < 4 ==> v[k] == old(v[k])
  {
    var total := sum;
    ghost var r := v[..];
    while total < 255
      invariant 254 <= total <= 255 && v[0] == r[0] + total - 254 && forall k :: 1 <= k < 4 ==> v[k] == r[k]
      decreases 255 - total
    {
      for k := 0 to 4
        invariant total == if k == 0 then 254 else 255
        invariant v[0] == r[0] + total - 254 && forall k :: 1 <= k < 4 ==> v[k] == r[k]
      {
        if v[k] < 255 && total < 255 {
          v[k] := v[k] + 1;
          total := total + 1;
        }
      }
    }
  }

  ghost predicate AreRounded(w: seq<real>, r: seq<int>) {
    |w| == |r| == 4 && forall k :: 0 <= k < 4 ==> r[k] == Rounded(w[k])
  }

  lemma LoweredShares(w: seq<real>, r: seq<int>, v: seq<int>)
    requires Unit(w) && AreRounded(w, r) && |v| == 4 && v[0] + v[1] + v[2] + v[3] == 255
    requires forall k :: 0 <= k < 4 ==> 0 <= v[k] && r[k] - 1 <= v[k] <= r[k]
    ensures Shares(w, v)
  {
    hide Rounded, Unit;
    RoundedSum(w);
  }

  lemma RaisedShares(w: seq<real>, r: seq<int>, v: seq<int>)
    requires Unit(w) && w[0] > 0.0 && AreRounded(w, r) && |v| == 4 && r[0] + r[1] + r[2] + r[3] == 254
    requires v[0] == r[0] + 1 && forall k :: 1 <= k < 4 ==> v[k] == r[k]
    ensures Shares(w, v)
  {
    hide Rounded, Unit;
    RoundedSum(w);
  }

  lemma EvenShares(w: seq<real>, r: seq<int>)
    requires Unit(w) && AreRounded(w, r) && r[0] + r[1] + r[2] + r[3] == 255
    ensures Shares(w, r)
  {
    hide Rounded, Unit;
    RoundedSum(w);
  }
}
