/** Expansion of constant index ranges into single indices: [0..1][0..2] becomes [0][0],
    [0][1], [0][2], [1][0], [1][1], [1][2]. */
module RangeExpansion {
  import opened Options

  /** Only integer literals can be expanded. */
  datatype Bound = Const(value: int) | Symbolic(name: string)
  datatype Range = Range(lower: Bound, upper: Option<Bound>)

  predicate IsConst(r: Range) {
    r.lower.Const? && (r.upper.Some? ==> r.upper.value.Const?)
  }

  predicate AllConst(rs: seq<Range>) {
    forall d | 0 <= d < |rs| :: IsConst(rs[d])
  }

  /** A range whose upper bound is below the lower one is not refused here; it yields its
      lower bound. */
  function Size(r: Range): (n: nat)
    requires IsConst(r)
    ensures n >= 1
  {
    if r.upper.Some? && r.upper.value.value > r.lower.value then r.upper.value.value - r.lower.value + 1 else 1
  }

  function Indices(r: Range): (s: seq<int>)
    requires IsConst(r)
    ensures |s| == Size(r) && forall k | 0 <= k < |s| :: s[k] == r.lower.value + k
  {
    seq(Size(r), k => r.lower.value + k)
  }

  /** x is the lower bound of a range, or lies between the two bounds, the upper one included. */
  predicate Selects(r: Range, x: int)
    requires IsConst(r)
  {
    x == r.lower.value || (r.upper.Some? && r.lower.value <= x <= r.upper.value.value)
  }

  /** Every coordinate lies within the bounds of its range. */
  predicate SelectsAll(rs: seq<Range>, t: seq<int>)
    requires AllConst(rs)
  {
    |t| == |rs| && forall d | 0 <= d < |rs| :: Selects(rs[d], t[d])
  }

  /** Exactly the indices of a range, by its bounds; and no index twice. */
  lemma IndicesExactly(r: Range, x: int)
    requires IsConst(r)
    ensures x in Indices(r) <==> Selects(r, x)
    ensures Ascending(Indices(r))
  {
    if Selects(r, x) {
      assert Indices(r)[x - r.lower.value] == x;
    }
  }

  predicate Ascending(s: seq<int>) {
    forall i, j | 0 <= i < j < |s| :: s[i] < s[j]
  }

  /** How many index tuples there are. */
  function Count(rs: seq<Range>): (n: nat)
    requires AllConst(rs)
    ensures n >= 1
  {
    if rs == [] then 1
    else
      Positive(Count(rs[..|rs| - 1]), Size(rs[|rs| - 1]));
      Count(rs[..|rs| - 1]) * Size(rs[|rs| - 1])
  }

  lemma Positive(a: nat, b: nat)
    requires a >= 1 && b >= 1
    ensures a * b >= 1
  {
  }

  /** The k-th tuple: the digits of k, the last dimension being the least significant one. */
  function Entry(rs: seq<Range>, k: nat): (t: seq<int>)
    requires AllConst(rs) && k < Count(rs)
    ensures |t| == |rs|
  {
    if rs == [] then []
    else
      var init, last := rs[..|rs| - 1], rs[|rs| - 1];
      DivideBelow(k, Count(init), Size(last));
      Entry(init, k / Size(last)) + [Indices(last)[k % Size(last)]]
  }

  lemma DivideBelow(k: nat, m: nat, n: nat)
    requires n > 0 && k < m * n
    ensures k / n < m && k == k / n * n + k % n
  {
    if k / n >= m {
      MultiplyMonotone(m, k / n, n);
    }
  }

  lemma MultiplyMonotone(a: nat, b: nat, n: nat)
    requires a <= b
    ensures a * n <= b * n
  {
  }

  lemma DivideParts(q: nat, r: nat, n: nat)
    requires r < n
    ensures (q * n + r) / n == q && (q * n + r) % n == r
  {
    var x := q * n + r;
    var d := x / n;
    assert x == d * n + x % n;
    if d > q {
      MultiplyMonotone(q + 1, d, n);
    } else if d < q {
      MultiplyMonotone(d + 1, q, n);
    }
  }

  /** The indices of one range, in the order in which they are appended. */
  method ExpandRange(r: Range) returns (ok: bool, a: seq<int>)
    ensures ok <==> IsConst(r)
    ensures ok ==> a == Indices(r)
    ensures ok ==> Ascending(a) && forall x :: x in a <==> Selects(r, x)
  {
    a := [];
    if !r.lower.Const? {
      return false, a;
    }
    var i := r.lower.value;
    a := a + [i];
    if r.upper.Some? {
      if !r.upper.value.Const? {
        return false, a;
      }
      var u := r.upper.value.value;
      var j := i + 1;
      while j < u
        invariant i < j && (i < u ==> j <= u) && (u <= i ==> j == i + 1)
        invariant |a| == j - i && forall k | 0 <= k < |a| :: a[k] == i + k
      {
        a := a + [j];
        j := j + 1;
      }
      if u > i {
        a := a + [u];
      }
    }
    ok := true;
    assert |a| == Size(r);
    forall x
      ensures x in Indices(r) <==> Selects(r, x)
    {
      IndicesExactly(r, x);
    }
  }

  /** All index tuples, dimension by dimension.  The accumulator is empty only before the
      first dimension. */
  method ExpandConstIndices(rs: seq<Range>) returns (ok: bool, a: seq<seq<int>>)
    requires rs != []
    ensures ok <==> AllConst(rs)
    ensures ok ==> |a| == Count(rs) && forall k | 0 <= k < |a| :: a[k] == Entry(rs, k)
    ensures ok ==> forall t :: t in a <==> SelectsAll(rs, t)
    ensures ok ==> forall j, k | 0 <= j < k < |a| :: |a[j]| == |a[k]| && LexLess(a[j], a[k])
  {
    hide Entry, Count, Size, IsSuffixed, Selects, SelectsAll, LexLess;
    a := [];
    for i := 0 to |rs|
      invariant AllConst(rs[..i])
      invariant if i == 0 then a == [] else |a| == Count(rs[..i])
      invariant i > 0 ==> forall k | 0 <= k < |a| :: a[k] == Entry(rs[..i], k)
    {
      var constant, cr := ExpandRange(rs[i]);
      if !constant {
        return false, a;
      }
      assert rs[..i + 1] == rs[..i] + [rs[i]];
      if a == [] {
        a := Singletons(cr);
        FirstDimension(rs[i]);
        assert rs[..i + 1] == [rs[i]];
      } else {
        ghost var before := a;
        a := Suffixed(a, cr);
        NextDimension(rs[..i], rs[i], before, a);
      }
    }
    assert rs[..|rs|] == rs;
    ok := true;
    EntriesExactly(rs, a);
  }

  lemma NextDimension(init: seq<Range>, last: Range, before: seq<seq<int>>, a: seq<seq<int>>)
    requires AllConst(init) && IsConst(last)
    requires |before| == Count(init) && forall k | 0 <= k < |before| :: before[k] == Entry(init, k)
    requires |a| == |before| * Size(last)
    requires forall k | 0 <= k < |a| :: IsSuffixed(a[k], before, Indices(last), k)
    ensures AllConst(init + [last]) && |a| == Count(init + [last])
    ensures forall k | 0 <= k < |a| :: a[k] == Entry(init + [last], k)
  {
    hide Entry, Count, Size;
    EntryUnfold(init, last, 0);
    forall k | 0 <= k < |a|
      ensures a[k] == Entry(init + [last], k)
    {
      EntryUnfold(init, last, k);
    }
  }

  lemma FirstDimension(r: Range)
    requires IsConst(r)
    ensures AllConst([r]) && Count([r]) == Size(r)
    ensures forall k | 0 <= k < Size(r) :: Entry([r], k) == [Indices(r)[k]]
  {
    hide Size, Entry, Count;
    assert [] + [r] == [r];
    CountNone();
    forall k | 0 <= k < Size(r)
      ensures k < Count([r]) && Entry([r], k) == [Indices(r)[k]]
    {
      EntryUnfold([], r, k);
      DivideParts(0, k, Size(r));
    }
    EntryUnfold([], r, 0);
  }

  lemma CountNone()
    ensures Count([]) == 1 && Entry([], 0) == []
  {
  }

  method Singletons(cr: seq<int>) returns (a: seq<seq<int>>)
    ensures |a| == |cr| && forall k | 0 <= k < |a| :: a[k] == [cr[k]]
  {
    a := [];
    for i := 0 to |cr|
      invariant |a| == i && forall k | 0 <= k < i :: a[k] == [cr[k]]
    {
      a := a + [[cr[i]]];
    }
  }

  /** x is the k-th of all combinations of a base and a suffix, the suffix running fastest. */
  predicate IsSuffixed(x: seq<int>, a: seq<seq<int>>, cr: seq<int>, k: nat)
    requires cr != []
  {
    k / |cr| < |a| && x == a[k / |cr|] + [cr[k % |cr|]]
  }

  lemma SuffixedAt(a: seq<seq<int>>, cr: seq<int>, i: nat, j: nat)
    requires i < |a| && j < |cr|
    ensures IsSuffixed(a[i] + [cr[j]], a, cr, i * |cr| + j)
  {
    DivideParts(i, j, |cr|);
  }

  /** Every tuple with every suffix. */
  method Suffixed(a: seq<seq<int>>, cr: seq<int>) returns (tmp: seq<seq<int>>)
    requires cr != []
    ensures |tmp| == |a| * |cr|
    ensures forall k | 0 <= k < |tmp| :: IsSuffixed(tmp[k], a, cr, k)
  {
    hide IsSuffixed;
    tmp := [];
    for i := 0 to |a|
      invariant |tmp| == i * |cr|
      invariant forall k | 0 <= k < |tmp| :: IsSuffixed(tmp[k], a, cr, k)
    {
      for j := 0 to |cr|
        invariant |tmp| == i * |cr| + j
        invariant forall k | 0 <= k < |tmp| :: IsSuffixed(tmp[k], a, cr, k)
      {
        SuffixedAt(a, cr, i, j);
        tmp := tmp + [a[i] + [cr[j]]];
      }
    }
  }

  // ---- the cross product ----

  predicate InProduct(rs: seq<Range>, t: seq<int>)
    requires AllConst(rs)
  {
    |t| == |rs| && forall d | 0 <= d < |rs| :: t[d] in Indices(rs[d])
  }

  /** The position of a tuple: the inverse of Entry. */
  function Rank(rs: seq<Range>, t: seq<int>): nat
    requires AllConst(rs) && InProduct(rs, t)
  {
    if rs == [] then 0
    else
      Rank(rs[..|rs| - 1], t[..|rs| - 1]) * Size(rs[|rs| - 1]) + (t[|rs| - 1] - rs[|rs| - 1].lower.value)
  }

  /** Every entry is a tuple of the product, and its rank is its position. */
  lemma {:induction false} RankOfEntry(rs: seq<Range>, k: nat)
    requires AllConst(rs) && k < Count(rs)
    ensures InProduct(rs, Entry(rs, k)) && Rank(rs, Entry(rs, k)) == k
  {
    if rs != [] {
      var init, last := rs[..|rs| - 1], rs[|rs| - 1];
      DivideBelow(k, Count(init), Size(last));
      RankOfEntry(init, k / Size(last));
      var t := Entry(rs, k);
      assert t[..|rs| - 1] == Entry(init, k / Size(last));
      forall d | 0 <= d < |rs|
        ensures t[d] in Indices(rs[d])
      {
        if d < |rs| - 1 {
          assert t[d] == Entry(init, k / Size(last))[d] && init[d] == rs[d];
        }
      }
    }
  }

  /** Every tuple of the product is an entry, at its rank. */
  lemma {:induction false} EntryOfRank(rs: seq<Range>, t: seq<int>)
    requires AllConst(rs) && InProduct(rs, t)
    ensures Rank(rs, t) < Count(rs) && Entry(rs, Rank(rs, t)) == t
  {
    hide Size, Entry, Count;
    if rs == [] {
      CountNone();
      assert rs == [] && t == [];
    } else {
      var init, last := rs[..|rs| - 1], rs[|rs| - 1];
      var front := t[..|rs| - 1];
      assert rs == init + [last];
      ProductParts(rs, t);
      EntryOfRank(init, front);
      LastDigit(init, last, Rank(init, front), t[|rs| - 1] - last.lower.value);
      assert front + [t[|rs| - 1]] == t;
    }
  }

  lemma ProductParts(rs: seq<Range>, t: seq<int>)
    requires AllConst(rs) && InProduct(rs, t) && rs != []
    ensures |t| == |rs| && InProduct(rs[..|rs| - 1], t[..|rs| - 1])
    ensures var r := rs[|rs| - 1]; r.lower.value <= t[|rs| - 1] < r.lower.value + Size(r)
  {
    var init, front := rs[..|rs| - 1], t[..|rs| - 1];
    assert t[|rs| - 1] in Indices(rs[|rs| - 1]);
    forall d | 0 <= d < |init|
      ensures front[d] in Indices(init[d])
    {
      assert t[d] in Indices(rs[d]);
    }
  }

  /** Appending a dimension appends a digit. */
  lemma LastDigit(init: seq<Range>, last: Range, q: nat, r: nat)
    requires AllConst(init) && IsConst(last) && q < Count(init) && r < Size(last)
    ensures AllConst(init + [last]) && q * Size(last) + r < Count(init + [last])
    ensures Entry(init + [last], q * Size(last) + r) == Entry(init, q) + [last.lower.value + r]
  {
    hide Size, Entry, Count;
    assert (init + [last])[..|init|] == init;
    MultiplyMonotone(q + 1, Count(init), Size(last));
    DivideParts(q, r, Size(last));
    EntryUnfold(init, last, q * Size(last) + r);
  }

  lemma EntryUnfold(init: seq<Range>, last: Range, k: nat)
    requires AllConst(init) && IsConst(last)
    ensures AllConst(init + [last]) && Count(init + [last]) == Count(init) * Size(last)
    ensures k < Count(init + [last]) ==>
      k / Size(last) < Count(init)
      && Entry(init + [last], k) == Entry(init, k / Size(last)) + [last.lower.value + k % Size(last)]
  {
    hide Size;
    assert (init + [last])[..|init|] == init;
    if k < Count(init + [last]) {
      DivideBelow(k, Count(init), Size(last));
    }
  }

  /** Exactly the tuples that are entries, by the bounds. */
  lemma EntriesExactly(rs: seq<Range>, a: seq<seq<int>>)
    requires AllConst(rs) && |a| == Count(rs) && forall k | 0 <= k < |a| :: a[k] == Entry(rs, k)
    ensures forall t :: t in a <==> SelectsAll(rs, t)
    ensures forall j, k | 0 <= j < k < |a| :: |a[j]| == |a[k]| && LexLess(a[j], a[k])
  {
    hide Entry, Count, Size, LexLess, Selects, SelectsAll, InProduct;
    forall t
      ensures t in a <==> SelectsAll(rs, t)
    {
      ProductExactly(rs, t);
      if SelectsAll(rs, t) {
        EntryOfRank(rs, t);
        assert a[Rank(rs, t)] == t;
      } else if t in a {
        var k :| 0 <= k < |a| && a[k] == t;
        RankOfEntry(rs, k);
      }
    }
    forall j, k | 0 <= j < k < |a|
      ensures |a[j]| == |a[k]| && LexLess(a[j], a[k])
    {
      EntriesAscend(rs, j, k);
    }
  }

  lemma ProductExactly(rs: seq<Range>, t: seq<int>)
    requires AllConst(rs)
    ensures InProduct(rs, t) <==> SelectsAll(rs, t)
  {
    hide Indices, Selects;
    if |t| == |rs| {
      forall d | 0 <= d < |rs|
        ensures t[d] in Indices(rs[d]) <==> Selects(rs[d], t[d])
      {
        IndicesExactly(rs[d], t[d]);
      }
    }
  }

  predicate LexLess(s: seq<int>, t: seq<int>)
    requires |s| == |t|
  {
    s != [] && (s[0] < t[0] || (s[0] == t[0] && LexLess(s[1..], t[1..])))
  }

  lemma {:induction false} LexExtend(s: seq<int>, t: seq<int>, x: int, y: int)
    requires |s| == |t|
    ensures LexLess(s + [x], t + [y]) <==> LexLess(s, t) || (s == t && x < y)
  {
    if s != [] {
      assert (s + [x])[1..] == s[1..] + [x] && (t + [y])[1..] == t[1..] + [y];
      LexExtend(s[1..], t[1..], x, y);
      assert s == [s[0]] + s[1..] && t == [t[0]] + t[1..];
    }
  }

  /** Entries come in lexicographic order, so no two are the same. */
  lemma {:induction false} EntriesAscend(rs: seq<Range>, j: nat, k: nat)
    requires AllConst(rs) && j < k < Count(rs)
    ensures LexLess(Entry(rs, j), Entry(rs, k)) && Entry(rs, j) != Entry(rs, k)
    decreases |rs|, 1
  {
    RankOfEntry(rs, j);
    RankOfEntry(rs, k);
    if rs != [] {
      assert rs[..|rs| - 1] + [rs[|rs| - 1]] == rs;
      EntriesAscendStep(rs[..|rs| - 1], rs[|rs| - 1], j, k);
    }
  }

  lemma {:induction false} EntriesAscendStep(init: seq<Range>, last: Range, j: nat, k: nat)
    requires AllConst(init) && IsConst(last)
    requires j < k < Count(init + [last])
    ensures LexLess(Entry(init + [last], j), Entry(init + [last], k))
    decreases |init| + 1, 0
  {
    hide Size, Entry, Count, LexLess;
    var n := Size(last);
    EntryUnfold(init, last, j);
    EntryUnfold(init, last, k);
    if j / n < k / n {
      EntriesAscend(init, j / n, k / n);
    } else {
      SameQuotient(j, k, n);
    }
    LexExtend(Entry(init, j / n), Entry(init, k / n), last.lower.value + j % n, last.lower.value + k % n);
  }

  lemma SameQuotient(j: nat, k: nat, n: nat)
    requires n > 0 && j < k && j / n >= k / n
    ensures j / n == k / n && j % n < k % n
  {
    MultiplyMonotone(k / n, j / n, n);
    if j / n > k / n {
      MultiplyMonotone(k / n + 1, j / n, n);
    }
  }
}
