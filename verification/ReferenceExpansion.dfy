/** Expansion of references with constant ranges into references to single instances:
    a[0..1].b[2..3] becomes a[0].b[2], a[0].b[3], a[1].b[2], a[1].b[3]. */
module ReferenceExpansion {
  import opened Options
  import opened RangeExpansion

  /** A reference as it is written. */
  datatype Ref = Id(name: string) | Member(owner: Ref, field: string) | Index(base: Ref, ranges: seq<Range>)

  /** One instance. */
  datatype Path = Root(name: string) | Field(owner: Path, field: string) | Element(base: Path, index: seq<int>)

  /** An index list has one dimension at least. */
  predicate Parsed(r: Ref) {
    match r
    case Id(_) => true
    case Member(o, _) => Parsed(o)
    case Index(b, rs) => Parsed(b) && rs != []
  }

  predicate Constant(r: Ref) {
    match r
    case Id(_) => true
    case Member(o, _) => Constant(o)
    case Index(b, rs) => Constant(b) && AllConst(rs)
  }

  // ---- what a reference denotes ----

  predicate Ordered(rs: seq<Range>)
    requires AllConst(rs)
  {
    forall d | 0 <= d < |rs| :: rs[d].upper.Some? ==> rs[d].lower.value <= rs[d].upper.value.value
  }

  function Tuples(rs: seq<Range>): (ts: seq<seq<int>>)
    requires AllConst(rs)
    ensures |ts| == Count(rs) && forall k | 0 <= k < |ts| :: ts[k] == Entry(rs, k)
  {
    seq(Count(rs), k requires 0 <= k < Count(rs) => Entry(rs, k))
  }

  function Fields(ps: seq<Path>, f: string): (r: seq<Path>)
    ensures |r| == |ps| && forall k | 0 <= k < |r| :: r[k] == Field(ps[k], f)
  {
    seq(|ps|, k requires 0 <= k < |ps| => Field(ps[k], f))
  }

  function ElementsOf(p: Path, ts: seq<seq<int>>): (r: seq<Path>)
    ensures |r| == |ts| && forall k | 0 <= k < |r| :: r[k] == Element(p, ts[k])
  {
    seq(|ts|, k requires 0 <= k < |ts| => Element(p, ts[k]))
  }

  function Elements(ps: seq<Path>, ts: seq<seq<int>>): seq<Path> {
    if ps == [] then [] else ElementsOf(ps[0], ts) + Elements(ps[1..], ts)
  }

  /** The instances denoted, in row-major order; a range with its bounds out of order selects
      nothing. */
  function Denote(r: Ref): seq<Path>
    requires Constant(r)
  {
    match r
    case Id(n) => [Root(n)]
    case Member(o, f) => Fields(Denote(o), f)
    case Index(b, rs) => Elements(Denote(b), if Ordered(rs) then Tuples(rs) else [])
  }

  predicate AllConstant(rs: seq<Ref>) {
    forall k | 0 <= k < |rs| :: Constant(rs[k])
  }

  function DenoteAll(rs: seq<Ref>): seq<Path>
    requires AllConstant(rs)
  {
    if rs == [] then [] else Denote(rs[0]) + DenoteAll(rs[1..])
  }

  /** x lies within the bounds of a range, which must be in order. */
  predicate InBounds(r: Range, x: int)
    requires IsConst(r)
  {
    r.lower.value <= x && (match r.upper case None => x == r.lower.value case Some(u) => x <= u.value)
  }

  predicate AllInBounds(rs: seq<Range>, t: seq<int>)
    requires AllConst(rs)
  {
    |t| == |rs| && forall d | 0 <= d < |rs| :: InBounds(rs[d], t[d])
  }

  /** Exactly the instances that a reference denotes, by the bounds of its ranges. */
  lemma {:induction false} DenotesExactly(r: Ref, p: Path)
    requires Constant(r)
    ensures p in Denote(r) <==>
      match r
      case Id(n) => p == Root(n)
      case Member(o, f) => p.Field? && p.field == f && p.owner in Denote(o)
      case Index(b, rs) => p.Element? && p.base in Denote(b) && AllInBounds(rs, p.index)
  {
    hide Denote, AllInBounds;
    match r
    case Id(n) => DenoteId(n);
    case Member(o, f) =>
      DenoteMember(o, f);
      var ps := Denote(o);
      if p.Field? && p.field == f && p.owner in ps {
        var k :| 0 <= k < |ps| && ps[k] == p.owner;
        assert Fields(ps, f)[k] == p;
      }
    case Index(b, rs) =>
      DenoteIndex(b, rs);
      ElementsExactly(Denote(b), if Ordered(rs) then Tuples(rs) else [], p);
      if p.Element? {
        TuplesExactly(rs, p.index);
      }
  }

  lemma DenoteId(n: string)
    ensures Denote(Id(n)) == [Root(n)]
  {
  }

  lemma DenoteMember(o: Ref, f: string)
    requires Constant(o)
    ensures Denote(Member(o, f)) == Fields(Denote(o), f)
  {
  }

  lemma DenoteIndex(b: Ref, rs: seq<Range>)
    requires Constant(b) && AllConst(rs)
    ensures Denote(Index(b, rs)) == Elements(Denote(b), if Ordered(rs) then Tuples(rs) else [])
  {
  }

  lemma {:induction false} ElementsExactly(ps: seq<Path>, ts: seq<seq<int>>, p: Path)
    ensures p in Elements(ps, ts) <==> p.Element? && p.base in ps && p.index in ts
  {
    if ps != [] {
      ElementsExactly(ps[1..], ts, p);
      var es := ElementsOf(ps[0], ts);
      if p.Element? && p.base == ps[0] && p.index in ts {
        var k :| 0 <= k < |ts| && ts[k] == p.index;
        assert es[k] == p;
      }
    }
  }

  lemma TuplesExactly(rs: seq<Range>, t: seq<int>)
    requires AllConst(rs)
    ensures (Ordered(rs) && t in Tuples(rs)) <==> AllInBounds(rs, t)
  {
    hide Entry, Count;
    EntriesExactly(rs, Tuples(rs));
    if Ordered(rs) {
      assert SelectsAll(rs, t) <==> AllInBounds(rs, t);
    } else {
      var d :| 0 <= d < |rs| && rs[d].upper.Some? && rs[d].lower.value > rs[d].upper.value.value;
      assert |t| == |rs| ==> !InBounds(rs[d], t[d]);
    }
  }

  /** And in which order: for every instance of the base in turn, all its elements, by index. */
  lemma {:induction false} ElementsInOrder(ps: seq<Path>, ts: seq<seq<int>>, i: nat, j: nat)
    requires i < |ps| && j < |ts|
    ensures i * |ts| + j < |Elements(ps, ts)|
    ensures Elements(ps, ts)[i * |ts| + j] == Element(ps[i], ts[j])
  {
    if i > 0 {
      ElementsInOrder(ps[1..], ts, i - 1, j);
      assert i * |ts| + j == |ts| + ((i - 1) * |ts| + j);
    }
  }

  /** The instances of an array, one dimension of which is given by its bounds. */
  lemma SliceDenotes(a: string, lo: int, hi: int, p: Path)
    ensures p in Denote(Index(Id(a), [Range(Const(lo), Some(Const(hi)))]))
            <==> exists x :: lo <= x <= hi && p == Element(Root(a), [x])
  {
    hide Denote, Tuples;
    var rs := [Range(Const(lo), Some(Const(hi)))];
    assert AllConst(rs) && Constant(Index(Id(a), rs));
    DenotesExactly(Index(Id(a), rs), p);
    DenoteId(a);
    OneDimension(rs[0], p);
    assert AllConst(rs) && rs == [rs[0]];
  }

  lemma OneDimension(r: Range, p: Path)
    requires IsConst(r)
    ensures p.Element? ==> (AllInBounds([r], p.index) <==> exists x :: InBounds(r, x) && p.index == [x])
  {
    if p.Element? && AllInBounds([r], p.index) {
      assert p.index == [p.index[0]] && InBounds([r][0], p.index[0]);
    }
  }

  // ---- the expansion ----

  function Single(x: int): Range {
    Range(Const(x), None)
  }

  function Singles(t: seq<int>): (rs: seq<Range>)
    ensures |rs| == |t| && forall d | 0 <= d < |t| :: rs[d] == Single(t[d])
  {
    seq(|t|, d requires 0 <= d < |t| => Single(t[d]))
  }

  function IndexedOnce(r: Ref, ts: seq<seq<int>>): (e: seq<Ref>)
    ensures |e| == |ts| && forall k | 0 <= k < |e| :: e[k] == Index(r, Singles(ts[k]))
  {
    seq(|ts|, k requires 0 <= k < |ts| => Index(r, Singles(ts[k])))
  }

  function Indexed(es: seq<Ref>, ts: seq<seq<int>>): seq<Ref> {
    if es == [] then [] else IndexedOnce(es[0], ts) + Indexed(es[1..], ts)
  }

  function Members(es: seq<Ref>, f: string): (r: seq<Ref>)
    ensures |r| == |es| && forall k | 0 <= k < |r| :: r[k] == Member(es[k], f)
  {
    seq(|es|, k requires 0 <= k < |es| => Member(es[k], f))
  }

  /** A member of something that expands to a single reference is left as it is. */
  function Expand(r: Ref): seq<Ref>
    requires Constant(r)
  {
    match r
    case Id(_) => [r]
    case Member(o, f) => if |Expand(o)| == 1 then [r] else Members(Expand(o), f)
    case Index(b, rs) => Indexed(Expand(b), Tuples(rs))
  }

  /** The expansion as it is computed, rewriting a vector. */
  method ExpandConstReference(r: Ref) returns (ok: bool, a: seq<Ref>)
    requires Parsed(r)
    ensures ok <==> Constant(r)
    ensures ok ==> a == Expand(r)
  {
    a := [];
    if r.Id? {
      return true, [r];
    } else if r.Member? {
      ok, a := ExpandConstReference(r.owner);
      if !ok {
        return;
      }
      if |a| == 1 {
        a := a[0 := r];
        return;
      }
      ghost var before := a;
      for i := 0 to |a|
        invariant |a| == |before| && a[..i] == Members(before, r.field)[..i] && a[i..] == before[i..]
      {
        assert a[i] == before[i];
        a := a[i := Member(a[i], r.field)];
      }
      assert a == a[..|a|];
    } else {
      ok, a := ExpandConstReference(r.base);
      if !ok {
        return;
      }
      var rtmp;
      ok, rtmp := ExpandConstIndices(r.ranges);
      if !ok {
        return;
      }
      assert rtmp == Tuples(r.ranges);
      a := CrossProduct(a, rtmp);
    }
  }

  method CrossProduct(a: seq<Ref>, ts: seq<seq<int>>) returns (ret: seq<Ref>)
    ensures ret == Indexed(a, ts)
  {
    hide Indexed;
    ret := [];
    assert a[0..] == a;
    for i := 0 to |a|
      invariant ret + Indexed(a[i..], ts) == Indexed(a, ts)
    {
      ghost var before := ret;
      for j := 0 to |ts|
        invariant ret == before + IndexedOnce(a[i], ts)[..j]
      {
        ret := ret + [Index(a[i], Singles(ts[j]))];
      }
      IndexedStep(a, i, ts);
      assert ret == before + IndexedOnce(a[i], ts);
      assert ret + Indexed(a[i + 1..], ts) == before + (IndexedOnce(a[i], ts) + Indexed(a[i + 1..], ts));
    }
    IndexedNone(a[|a|..], ts);
  }

  lemma IndexedStep(a: seq<Ref>, i: nat, ts: seq<seq<int>>)
    requires i < |a|
    ensures Indexed(a[i..], ts) == IndexedOnce(a[i], ts) + Indexed(a[i + 1..], ts)
  {
    assert a[i..][1..] == a[i + 1..];
  }

  lemma IndexedNone(a: seq<Ref>, ts: seq<seq<int>>)
    requires a == []
    ensures Indexed(a, ts) == []
  {
  }

  // ---- the expansion is faithful ----

  lemma {:induction false} SinglesEntry(t: seq<int>)
    ensures AllConst(Singles(t)) && Ordered(Singles(t)) && Tuples(Singles(t)) == [t]
  {
    if t == [] {
    } else {
      var init := t[..|t| - 1];
      assert Singles(t)[..|t| - 1] == Singles(init);
      SinglesEntry(init);
      assert Tuples(Singles(init))[0] == init;
      assert init + [t[|t| - 1]] == t;
    }
  }

  lemma {:induction false} ElementsConcat(p: seq<Path>, q: seq<Path>, ts: seq<seq<int>>)
    ensures Elements(p + q, ts) == Elements(p, ts) + Elements(q, ts)
  {
    if p == [] {
      assert p + q == q;
    } else {
      assert (p + q)[1..] == p[1..] + q;
      ElementsConcat(p[1..], q, ts);
    }
  }

  lemma {:induction false} ElementsNone(ps: seq<Path>)
    ensures Elements(ps, []) == []
  {
    if ps != [] {
      ElementsNone(ps[1..]);
    }
  }

  lemma {:induction false} ElementsLength(ps: seq<Path>, ts: seq<seq<int>>)
    ensures |Elements(ps, ts)| == |ps| * |ts|
  {
    if ps != [] {
      ElementsLength(ps[1..], ts);
    }
  }

  /** Different bases have different elements. */
  lemma {:induction false} ElementsInjective(p: seq<Path>, q: seq<Path>, ts: seq<seq<int>>)
    requires ts != []
    ensures Elements(p, ts) == Elements(q, ts) <==> p == q
  {
    if p != [] && q != [] {
      var a, b := Elements(p, ts), Elements(q, ts);
      assert a[..|ts|] == ElementsOf(p[0], ts) && b[..|ts|] == ElementsOf(q[0], ts);
      assert a[|ts|..] == Elements(p[1..], ts) && b[|ts|..] == Elements(q[1..], ts);
      if a == b {
        assert ElementsOf(p[0], ts)[0] == ElementsOf(q[0], ts)[0];
      }
      ElementsInjective(p[1..], q[1..], ts);
      assert p == [p[0]] + p[1..] && q == [q[0]] + q[1..];
    }
  }

  lemma FieldsInjective(p: seq<Path>, q: seq<Path>, f: string)
    ensures Fields(p, f) == Fields(q, f) <==> p == q
  {
    if Fields(p, f) == Fields(q, f) {
      forall k | 0 <= k < |p|
        ensures p[k] == q[k]
      {
        assert Fields(p, f)[k] == Fields(q, f)[k];
      }
    }
  }

  /** Every reference in the expansion denotes one instance, or none. */
  predicate Scalar(r: Ref) {
    Constant(r) && |Denote(r)| <= 1
  }

  predicate AllScalar(rs: seq<Ref>): (b: bool)
    ensures b ==> AllConstant(rs)
  {
    forall k | 0 <= k < |rs| :: Scalar(rs[k])
  }

  lemma {:induction false} DenoteAllOnes(es: seq<Ref>, ps: seq<Path>)
    requires |es| == |ps| && AllConstant(es)
    requires forall k | 0 <= k < |es| :: Denote(es[k]) == [ps[k]]
    ensures DenoteAll(es) == ps
  {
    hide Denote, Constant;
    if es != [] {
      DenoteAllOnes(es[1..], ps[1..]);
      assert ps == [ps[0]] + ps[1..];
    }
  }

  lemma {:induction false} DenoteAllNone(es: seq<Ref>)
    requires AllConstant(es)
    requires forall k | 0 <= k < |es| :: Denote(es[k]) == []
    ensures DenoteAll(es) == []
  {
    hide Denote, Constant;
    if es != [] {
      DenoteAllNone(es[1..]);
    }
  }

  lemma IndexedDenote(r: Ref, ts: seq<seq<int>>)
    requires Scalar(r)
    ensures AllScalar(IndexedOnce(r, ts))
    ensures DenoteAll(IndexedOnce(r, ts)) == Elements(Denote(r), ts)
  {
    hide Denote, Constant, DenoteAll, Elements;
    var es := IndexedOnce(r, ts);
    forall k | 0 <= k < |es|
      ensures Scalar(es[k]) && Denote(es[k]) == if Denote(r) == [] then [] else [Element(Denote(r)[0], ts[k])]
    {
      IndexDenote(r, ts[k]);
    }
    if Denote(r) == [] {
      DenoteAllNone(es);
      NoElements(ts);
    } else {
      DenoteAllOnes(es, ElementsOf(Denote(r)[0], ts));
      OneElement(Denote(r), ts);
    }
  }

  lemma NoElements(ts: seq<seq<int>>)
    ensures Elements([], ts) == []
  {
  }

  lemma OneElement(ps: seq<Path>, ts: seq<seq<int>>)
    requires |ps| == 1
    ensures Elements(ps, ts) == ElementsOf(ps[0], ts)
  {
    assert Elements(ps[1..], ts) == [];
  }

  lemma IndexDenote(r: Ref, t: seq<int>)
    requires Scalar(r)
    ensures Scalar(Index(r, Singles(t)))
    ensures Denote(Index(r, Singles(t))) == if Denote(r) == [] then [] else [Element(Denote(r)[0], t)]
  {
    SinglesEntry(t);
    if Denote(r) != [] {
      OneElement(Denote(r), [t]);
    }
  }

  lemma {:induction false} DenoteAllConcat(a: seq<Ref>, b: seq<Ref>)
    requires AllConstant(a) && AllConstant(b)
    ensures DenoteAll(a + b) == DenoteAll(a) + DenoteAll(b)
  {
    if a == [] {
      assert a + b == b;
    } else {
      assert (a + b)[1..] == a[1..] + b;
      DenoteAllConcat(a[1..], b);
    }
  }

  /** Indexing the expansion means indexing what it denotes. */
  lemma {:induction false} IndexedDenoteAll(es: seq<Ref>, ts: seq<seq<int>>)
    requires AllScalar(es)
    ensures AllScalar(Indexed(es, ts))
    ensures DenoteAll(Indexed(es, ts)) == Elements(DenoteAll(es), ts)
  {
    if es != [] {
      IndexedDenote(es[0], ts);
      IndexedDenoteAll(es[1..], ts);
      DenoteAllConcat(IndexedOnce(es[0], ts), Indexed(es[1..], ts));
      ElementsConcat(Denote(es[0]), DenoteAll(es[1..]), ts);
    }
  }

  lemma {:induction false} MembersDenoteAll(es: seq<Ref>, f: string)
    requires AllScalar(es)
    ensures AllScalar(Members(es, f))
    ensures DenoteAll(Members(es, f)) == Fields(DenoteAll(es), f)
  {
    hide Denote, Constant, Fields;
    if es == [] {
      assert Fields([], f) == [] by { FieldsConcat([], [], f); }
    } else {
      assert Members(es, f)[1..] == Members(es[1..], f);
      MemberDenote(es[0], f);
      MembersDenoteAll(es[1..], f);
      FieldsConcat(Denote(es[0]), DenoteAll(es[1..]), f);
    }
  }

  lemma MemberDenote(e: Ref, f: string)
    requires Scalar(e)
    ensures Scalar(Member(e, f)) && Denote(Member(e, f)) == Fields(Denote(e), f)
  {
  }

  lemma FieldsConcat(a: seq<Path>, b: seq<Path>, f: string)
    ensures Fields(a + b, f) == Fields(a, f) + Fields(b, f)
    ensures Fields([], f) == []
  {
  }

  lemma {:induction false} IndexedLength(es: seq<Ref>, ts: seq<seq<int>>)
    ensures |Indexed(es, ts)| == |es| * |ts|
  {
    if es != [] {
      IndexedLength(es[1..], ts);
    }
  }

  /** What expands to one reference has one index in every range, so it denotes one instance
      at most, and it denotes none only if some range is out of order. */
  lemma {:induction false} OneDenotes(r: Ref)
    requires Constant(r)
    ensures |Expand(r)| >= 1
    ensures |Expand(r)| == 1 ==> |Denote(r)| <= 1
    ensures Denote(r) == [] <==> !AllOrdered(r)
  {
    match r
    case Id(_) =>
    case Member(o, _) => OneDenotes(o);
    case Index(b, rs) =>
      OneDenotes(b);
      IndexedLength(Expand(b), Tuples(rs));
      OneFactor(|Expand(b)|, |Tuples(rs)|);
      var ts := if Ordered(rs) then Tuples(rs) else [];
      ElementsLength(Denote(b), ts);
      OneFactor(|Denote(b)|, |ts|);
  }

  lemma OneFactor(a: nat, b: nat)
    ensures a >= 1 && b >= 1 ==> a * b >= 1
    ensures a * b == 0 <==> a == 0 || b == 0
    ensures a * b == 1 ==> a == 1 && b == 1
    ensures a <= 1 && b <= 1 ==> a * b <= 1
  {
    if a >= 2 && b >= 1 {
      assert a * b >= 2 * b;
    }
  }

  predicate AllOrdered(r: Ref)
    requires Constant(r)
  {
    match r
    case Id(_) => true
    case Member(o, _) => AllOrdered(o)
    case Index(b, rs) => AllOrdered(b) && Ordered(rs)
  }

  lemma {:induction false} ExpandScalar(r: Ref)
    requires Constant(r)
    ensures AllScalar(Expand(r))
  {
    match r
    case Id(_) =>
    case Member(o, f) =>
      ExpandScalar(o);
      if |Expand(o)| == 1 {
        OneDenotes(o);
      } else {
        MembersDenoteAll(Expand(o), f);
      }
    case Index(b, rs) =>
      ExpandScalar(b);
      IndexedDenoteAll(Expand(b), Tuples(rs));
  }

  /** How many references a reference expands to: the product of the sizes of its ranges. */
  function Copies(r: Ref): nat
    requires Constant(r)
  {
    match r
    case Id(_) => 1
    case Member(o, _) => Copies(o)
    case Index(b, rs) => Copies(b) * Count(rs)
  }

  lemma {:induction false} ExpandCopies(r: Ref)
    requires Constant(r)
    ensures |Expand(r)| == Copies(r)
  {
    match r
    case Id(_) =>
    case Member(o, _) => ExpandCopies(o);
    case Index(b, rs) =>
      ExpandCopies(b);
      IndexedLength(Expand(b), Tuples(rs));
  }

  /** The expansion denotes nothing at all: below the last member that is left alone, some
      range is out of order. */
  predicate Hollow(r: Ref)
    requires Constant(r)
  {
    match r
    case Id(_) => false
    case Member(o, _) => if Copies(o) == 1 then !AllOrdered(o) else Hollow(o)
    case Index(b, _) => Hollow(b)
  }

  /** A range out of order is expanded to its lower bound, which it does not select; that
      does no harm only where nothing is denoted anyway, or where it is not expanded. */
  predicate Faithful(r: Ref)
    requires Constant(r)
  {
    match r
    case Id(_) => true
    case Member(o, _) => Copies(o) == 1 || Faithful(o)
    case Index(b, rs) => if Ordered(rs) then Faithful(b) else Hollow(b)
  }

  /** Exactly when the expansion denotes what the reference denotes, in the same order. */
  lemma {:induction false} ExpansionFaithful(r: Ref)
    requires Constant(r)
    ensures AllConstant(Expand(r))
    ensures DenoteAll(Expand(r)) == Denote(r) <==> Faithful(r)
    ensures DenoteAll(Expand(r)) == [] <==> Hollow(r)
  {
    ExpandScalar(r);
    match r
    case Id(_) =>
      assert DenoteAll(Expand(r)) == Denote(r);
    case Member(o, f) =>
      ExpandScalar(o);
      ExpandCopies(o);
      if |Expand(o)| == 1 {
        OneDenotes(o);
        assert DenoteAll([r]) == Denote(r);
      } else {
        ExpansionFaithful(o);
        MembersDenoteAll(Expand(o), f);
        FieldsInjective(DenoteAll(Expand(o)), Denote(o), f);
      }
    case Index(b, rs) =>
      ExpandScalar(b);
      ExpansionFaithful(b);
      var ts, ps := Tuples(rs), DenoteAll(Expand(b));
      IndexedDenoteAll(Expand(b), ts);
      ElementsInjective(ps, Denote(b), ts);
      ElementsInjective(ps, [], ts);
      ElementsNone(Denote(b));
  }

  /** With all bounds in order, nothing is lost, added or moved. */
  lemma {:induction false} OrderedIsFaithful(r: Ref)
    requires Constant(r) && AllOrdered(r)
    ensures Faithful(r)
  {
    match r
    case Id(_) =>
    case Member(o, _) => OrderedIsFaithful(o);
    case Index(b, _) => OrderedIsFaithful(b);
  }

  /** a[2..1] selects nothing and is expanded to a[2]. */
  lemma DisorderExample()
    ensures var r := Index(Id("a"), [Range(Const(2), Some(Const(1)))]);
      && Parsed(r) && Constant(r) && !Faithful(r)
      && Denote(r) == [] && Expand(r) == [Index(Id("a"), [Single(2)])]
  {
    var rs := [Range(Const(2), Some(Const(1)))];
    var r := Index(Id("a"), rs);
    assert rs[0].upper.Some? && !Ordered(rs);
    FirstDimension(rs[0]);
    assert Tuples(rs) == [[2]];
    assert Singles([2]) == [Single(2)];
    var once := IndexedOnce(Id("a"), [[2]]);
    assert once == [Index(Id("a"), [Single(2)])];
    assert Expand(r) == once + Indexed([Id("a")][1..], [[2]]) == once + [];
  }
}
