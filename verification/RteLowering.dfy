/** Lowering of atomic run-time expressions: binary AND and OR trees become n-ary nodes,
    built in place in the operands. */
module RteLowering {
  import opened Sequences

  datatype Op = And | Or

  /** References are to bools; internal nodes cannot be mentioned here. */
  datatype Source = Literal(ref: string) | Not(arg: Source) | Binary(op: Op, left: Source, right: Source)
  datatype Expr = Lit(ref: string) | Neg(arg: Expr) | Node(op: Op, args: seq<Expr>)

  type World = string -> bool

  predicate SourceValue(s: Source, w: World) {
    match s
    case Literal(ref) => w(ref)
    case Not(a) => !SourceValue(a, w)
    case Binary(op, l, r) => Apply(op, SourceValue(l, w), SourceValue(r, w))
  }

  predicate Apply(op: Op, a: bool, b: bool) {
    if op == And then a && b else a || b
  }

  predicate Value(e: Expr, w: World) {
    match e
    case Lit(ref) => w(ref)
    case Neg(a) => !Value(a, w)
    case Node(And, args) => All(args, true, w)
    case Node(Or, args) => !All(args, false, w)
  }

  /** All of es have value b. */
  predicate All(es: seq<Expr>, b: bool, w: World) {
    forall k | 0 <= k < |es| :: Value(es[k], w) == b
  }

  /** The left operand absorbs the operands of any node on its right, whatever its operator. */
  function Merge(op: Op, l: Expr, r: Expr): Expr {
    if l.Node? && l.op == op && r.Node? then Node(op, l.args + r.args)
    else if l.Node? && l.op == op then Node(op, l.args + [r])
    else if r.Node? && r.op == op then Node(op, [l] + r.args)
    else Node(op, [l, r])
  }

  function Lower(s: Source): (e: Expr)
    ensures s.Binary? <==> e.Node?
    ensures s.Binary? ==> e.op == s.op && |e.args| >= 2
  {
    match s
    case Literal(ref) => Lit(ref)
    case Not(a) => Neg(Lower(a))
    case Binary(op, l, r) => Merge(op, Lower(l), Lower(r))
  }

  /** No node is absorbed into one with the other operator. */
  predicate Matched(s: Source) {
    match s
    case Literal(_) => true
    case Not(a) => Matched(a)
    case Binary(op, l, r) => Matched(l) && Matched(r) && !Clash(op, l, r)
  }

  predicate Clash(op: Op, l: Source, r: Source) {
    l.Binary? && l.op == op && r.Binary? && r.op != op
  }

  lemma AllConcat(a: seq<Expr>, b: seq<Expr>, v: bool, w: World)
    ensures All(a + b, v, w) <==> All(a, v, w) && All(b, v, w)
  {
    hide Value;
    assert forall k | 0 <= k < |a| :: (a + b)[k] == a[k];
    assert forall k | 0 <= k < |b| :: (a + b)[|a| + k] == b[k];
  }

  lemma AllSingle(e: Expr, v: bool, w: World)
    ensures All([e], v, w) <==> Value(e, w) == v
  {
    hide Value;
    assert [e][0] == e;
  }

  /** The operands that a merged node gets from its right operand. */
  function Absorbed(op: Op, l: Expr, r: Expr): seq<Expr> {
    if r.Node? && (r.op == op || (l.Node? && l.op == op)) then r.args else [r]
  }

  function Reused(op: Op, l: Expr): seq<Expr> {
    if l.Node? && l.op == op then l.args else [l]
  }

  lemma MergeParts(op: Op, l: Expr, r: Expr)
    ensures Merge(op, l, r) == Node(op, Reused(op, l) + Absorbed(op, l, r))
  {
  }

  lemma MergeValue(op: Op, l: Source, r: Source, w: World)
    requires !Clash(op, l, r)
    ensures Value(Merge(op, Lower(l), Lower(r)), w) == Apply(op, Value(Lower(l), w), Value(Lower(r), w))
  {
    hide All;
    MergeParts(op, Lower(l), Lower(r));
    AllConcat(Reused(op, Lower(l)), Absorbed(op, Lower(l), Lower(r)), op == And, w);
    AllSingle(Lower(l), op == And, w);
    AllSingle(Lower(r), op == And, w);
  }

  /** Lowering keeps the value of every expression without a clash, in every world. */
  lemma {:induction false} ValueKept(s: Source, w: World)
    requires Matched(s)
    ensures Value(Lower(s), w) == SourceValue(s, w)
  {
    match s
    case Literal(_) =>
    case Not(a) => ValueKept(a, w);
    case Binary(op, l, r) =>
      ValueKept(l, w);
      ValueKept(r, w);
      MergeValue(op, l, r, w);
  }

  /** No node is directly under one of the same operator, and every node has two operands at
      least. */
  predicate Flat(e: Expr)
    decreases e, 0
  {
    match e
    case Lit(_) => true
    case Neg(a) => Flat(a)
    case Node(op, args) => |args| >= 2 && AllUnder(op, args)
  }

  predicate AllUnder(op: Op, es: seq<Expr>)
    decreases es, 0
  {
    forall k | 0 <= k < |es| :: Flat(es[k]) && !(es[k].Node? && es[k].op == op)
  }

  lemma UnderConcat(op: Op, a: seq<Expr>, b: seq<Expr>)
    requires AllUnder(op, a) && AllUnder(op, b)
    ensures AllUnder(op, a + b)
  {
    hide Flat;
  }

  /** Lowering flattens every expression without a clash. */
  lemma {:induction false} LowerIsFlat(s: Source)
    requires Matched(s)
    ensures Flat(Lower(s))
  {
    hide AllUnder;
    match s
    case Literal(_) =>
    case Not(a) => LowerIsFlat(a);
    case Binary(op, l, r) =>
      LowerIsFlat(l);
      LowerIsFlat(r);
      MergeParts(op, Lower(l), Lower(r));
      OneUnder(op, Lower(l));
      OneUnder(op, Lower(r));
      UnderConcat(op, Reused(op, Lower(l)), Absorbed(op, Lower(l), Lower(r)));
  }

  lemma OneUnder(op: Op, e: Expr)
    requires Flat(e)
    ensures !(e.Node? && e.op == op) ==> AllUnder(op, [e])
  {
    assert [e][0] == e;
  }

  /** With a clash it need not: (a & b) & ((c & d) | e) has an AND under an AND. */
  lemma NotFlatExample()
    ensures var s := Binary(And, Binary(And, Literal("a"), Literal("b")),
                            Binary(Or, Binary(And, Literal("c"), Literal("d")), Literal("e")));
      !Matched(s) && !Flat(Lower(s))
  {
    var l := Binary(And, Literal("a"), Literal("b"));
    var inner := Binary(And, Literal("c"), Literal("d"));
    var s := Binary(And, l, Binary(Or, inner, Literal("e")));
    assert Lower(s).args[2] == Lower(inner) && Lower(inner).op == And;
    assert !AllUnder(And, Lower(s).args);
  }

  /** The bools from left to right joined by one operator. */
  function Joined(op: Op, refs: seq<string>): Source
    requires refs != []
  {
    if |refs| == 1 then Literal(refs[0])
    else Binary(op, Joined(op, refs[..|refs| - 1]), Literal(refs[|refs| - 1]))
  }

  /** AND is true if all are, OR if one is, and a negation if its operand is not. */
  lemma {:induction false} JoinedValue(refs: seq<string>, w: World)
    requires refs != []
    ensures SourceValue(Joined(And, refs), w) <==> forall k | 0 <= k < |refs| :: w(refs[k])
    ensures SourceValue(Joined(Or, refs), w) <==> !forall k | 0 <= k < |refs| :: !w(refs[k])
    ensures SourceValue(Not(Joined(And, refs)), w) <==> !forall k | 0 <= k < |refs| :: w(refs[k])
    decreases |refs|
  {
    var n := |refs| - 1;
    if n > 0 {
      var init := refs[..n];
      JoinedValue(init, w);
      assert forall k | 0 <= k < n :: init[k] == refs[k];
      assert SourceValue(Joined(And, refs), w) <==> SourceValue(Joined(And, init), w) && w(refs[n]);
      assert SourceValue(Joined(Or, refs), w) <==> SourceValue(Joined(Or, init), w) || w(refs[n]);
    }
  }

  // ---- exactly when the value is kept ----

  function Leaves(s: Source): seq<string> {
    match s
    case Literal(ref) => [ref]
    case Not(a) => Leaves(a)
    case Binary(_, l, r) => Leaves(l) + Leaves(r)
  }

  /** An assignment that gives every operand anywhere in s the value b. */
  function Uniform(s: Source, b: bool): map<string, bool> {
    match s
    case Literal(ref) => map[ref := b]
    case Not(a) => Uniform(a, !b)
    case Binary(_, l, r) => Uniform(l, b) + Uniform(r, b)
  }

  ghost predicate Follows(w: World, m: map<string, bool>) {
    forall x | x in m :: w(x) == m[x]
  }

  lemma {:induction false} UniformLeaves(s: Source, b: bool)
    ensures Uniform(s, b).Keys == set x | x in Leaves(s)
  {
    match s
    case Literal(_) =>
    case Not(a) => UniformLeaves(a, !b);
    case Binary(_, l, r) => UniformLeaves(l, b); UniformLeaves(r, b);
  }

  lemma FollowsParts(w: World, a: map<string, bool>, b: map<string, bool>)
    requires Follows(w, a + b) && a.Keys !! b.Keys
    ensures Follows(w, a) && Follows(w, b)
  {
    assert forall x | x in a :: (a + b)[x] == a[x];
    assert forall x | x in b :: (a + b)[x] == b[x];
  }

  /** Where all operands agree, even a clash does no harm. */
  lemma {:induction false} UniformValue(s: Source, b: bool, w: World)
    requires Distinct(Leaves(s)) && Follows(w, Uniform(s, b))
    ensures SourceValue(s, w) == b && Value(Lower(s), w) == b
    ensures s.Binary? ==> All(Lower(s).args, b, w)
  {
    hide Follows, Distinct;
    match s
    case Literal(_) =>
      UniformLiteral(s.ref, b, w);
    case Not(a) =>
      UniformValue(a, !b, w);
    case Binary(op, l, r) =>
      DistinctParts(Leaves(l), Leaves(r));
      UniformLeaves(l, b);
      UniformLeaves(r, b);
      FollowsParts(w, Uniform(l, b), Uniform(r, b));
      UniformValue(l, b, w);
      UniformValue(r, b, w);
      UniformMerge(s, b, w);
  }

  lemma UniformLiteral(ref: string, b: bool, w: World)
    requires Follows(w, map[ref := b])
    ensures w(ref) == b
  {
    assert ref in map[ref := b];
  }

  lemma UniformMerge(s: Source, b: bool, w: World)
    requires s.Binary?
    requires Value(Lower(s.left), w) == b && (s.left.Binary? ==> All(Lower(s.left).args, b, w))
    requires Value(Lower(s.right), w) == b && (s.right.Binary? ==> All(Lower(s.right).args, b, w))
    ensures All(Lower(s).args, b, w) && Value(Lower(s), w) == b
  {
    var l, r := Lower(s.left), Lower(s.right);
    MergeParts(s.op, l, r);
    AllConcat(Reused(s.op, l), Absorbed(s.op, l, r), b, w);
    AllSingle(l, b, w);
    AllSingle(r, b, w);
    assert Value(Lower(s).args[0], w) == b;
  }

  /** An assignment under which lowering changes the value. */
  function Spoiler(s: Source): map<string, bool>
    requires !Matched(s)
  {
    match s
    case Not(a) => Spoiler(a)
    case Binary(op, l, r) =>
      var neutral := op == And;
      if Clash(op, l, r) then Uniform(l, neutral) + (Uniform(r.left, neutral) + Uniform(r.right, !neutral))
      else if !Matched(l) then Spoiler(l) + Uniform(r, neutral)
      else Uniform(l, neutral) + Spoiler(r)
  }

  lemma {:induction false} SpoilerLeaves(s: Source)
    requires !Matched(s)
    ensures Spoiler(s).Keys == set x | x in Leaves(s)
  {
    match s
    case Not(a) => SpoilerLeaves(a);
    case Binary(op, l, r) =>
      var neutral := op == And;
      UniformLeaves(l, neutral);
      UniformLeaves(r, neutral);
      if Clash(op, l, r) {
        UniformLeaves(r.left, neutral);
        UniformLeaves(r.right, !neutral);
      } else if !Matched(l) {
        SpoilerLeaves(l);
      } else {
        SpoilerLeaves(r);
      }
  }

  lemma {:induction false} SpoilerSpoils(s: Source, w: World)
    requires !Matched(s) && Distinct(Leaves(s)) && Follows(w, Spoiler(s))
    ensures Value(Lower(s), w) != SourceValue(s, w)
  {
    hide Follows, Distinct, All;
    match s
    case Not(a) => SpoilerSpoils(a, w);
    case Binary(op, l, r) =>
      var neutral := op == And;
      DistinctParts(Leaves(l), Leaves(r));
      UniformLeaves(l, neutral);
      UniformLeaves(r, neutral);
      if Clash(op, l, r) {
        ClashSpoils(s, w);
      } else if !Matched(l) {
        SpoilerLeaves(l);
        FollowsParts(w, Spoiler(l), Uniform(r, neutral));
        SpoilerSpoils(l, w);
        UniformValue(r, neutral, w);
        MergeValue(op, l, r, w);
      } else {
        SpoilerLeaves(r);
        FollowsParts(w, Uniform(l, neutral), Spoiler(r));
        SpoilerSpoils(r, w);
        UniformValue(l, neutral, w);
        MergeValue(op, l, r, w);
      }
  }

  /** With a clash, the last operand of the right-hand node decides by itself. */
  lemma ClashSpoils(s: Source, w: World)
    requires s.Binary? && Clash(s.op, s.left, s.right)
    requires Distinct(Leaves(s)) && Follows(w, Spoiler(s))
    ensures Value(Lower(s), w) != SourceValue(s, w)
  {
    hide Follows, Distinct, All;
    var neutral, l, r := s.op == And, s.left, s.right;
    DistinctParts(Leaves(l), Leaves(r));
    DistinctParts(Leaves(r.left), Leaves(r.right));
    UniformLeaves(l, neutral);
    UniformLeaves(r.left, neutral);
    UniformLeaves(r.right, !neutral);
    var ra, rb := Uniform(r.left, neutral), Uniform(r.right, !neutral);
    assert Leaves(r) == Leaves(r.left) + Leaves(r.right);
    FollowsParts(w, Uniform(l, neutral), ra + rb);
    FollowsParts(w, ra, rb);
    UniformValue(l, neutral, w);
    UniformValue(r.left, neutral, w);
    UniformValue(r.right, !neutral, w);
    assert SourceValue(s, w) == neutral;
    var a, b := Lower(r.left), Lower(r.right);
    MergeParts(r.op, a, b);
    NotAll(Absorbed(r.op, a, b), b, neutral, w);
    AllConcat(Reused(r.op, a), Absorbed(r.op, a, b), neutral, w);
    MergeParts(s.op, Lower(l), Lower(r));
    AllConcat(Reused(s.op, Lower(l)), Lower(r).args, neutral, w);
  }

  lemma NotAll(es: seq<Expr>, e: Expr, b: bool, w: World)
    requires es == [e] || (e.Node? && es == e.args && |es| >= 2 && All(es, !b, w))
    requires Value(e, w) == !b
    ensures !All(es, b, w)
  {
    assert Value(es[0], w) == !b;
  }

  /** Exactly when lowering keeps the value: for an expression that mentions each bool once,
      if and only if no node is absorbed into one with the other operator. */
  lemma ValueKeptExactly(s: Source)
    requires Distinct(Leaves(s))
    ensures (forall w :: Value(Lower(s), w) == SourceValue(s, w)) <==> Matched(s)
  {
    hide Value, SourceValue, Matched, Spoiler;
    if Matched(s) {
      forall w
        ensures Value(Lower(s), w) == SourceValue(s, w)
      {
        ValueKept(s, w);
      }
    } else {
      var m := Spoiler(s);
      var w := x => x in m && m[x];
      SpoilerSpoils(s, w);
    }
  }

  /** (a && b) && (c || d) becomes a && b && c && d. */
  lemma ClashExample()
    ensures var s := Binary(And, Binary(And, Literal("a"), Literal("b")), Binary(Or, Literal("c"), Literal("d")));
      && Lower(s) == Node(And, [Lit("a"), Lit("b"), Lit("c"), Lit("d")])
      && var w := (x: string) => x != "d"; SourceValue(s, w) && !Value(Lower(s), w)
  {
    var w := (x: string) => x != "d";
    var args := [Lit("a"), Lit("b"), Lit("c"), Lit("d")];
    assert Value(args[3], w) == false;
  }

  // ---- order ----

  function ExprLeaves(e: Expr): seq<string> {
    match e
    case Lit(ref) => [ref]
    case Neg(a) => ExprLeaves(a)
    case Node(_, args) => AllLeaves(args)
  }

  function AllLeaves(es: seq<Expr>): seq<string> {
    if es == [] then [] else ExprLeaves(es[0]) + AllLeaves(es[1..])
  }

  lemma {:induction false} AllLeavesConcat(a: seq<Expr>, b: seq<Expr>)
    ensures AllLeaves(a + b) == AllLeaves(a) + AllLeaves(b)
  {
    if a == [] {
      assert a + b == b;
    } else {
      assert (a + b)[1..] == a[1..] + b;
      AllLeavesConcat(a[1..], b);
    }
  }

  /** References stay in order, clash or no clash. */
  lemma {:induction false} LeavesKept(s: Source)
    ensures ExprLeaves(Lower(s)) == Leaves(s)
  {
    match s
    case Literal(_) =>
    case Not(a) => LeavesKept(a);
    case Binary(op, l, r) =>
      LeavesKept(l);
      LeavesKept(r);
      MergeParts(op, Lower(l), Lower(r));
      AllLeavesConcat(Reused(op, Lower(l)), Absorbed(op, Lower(l), Lower(r)));
  }

  // ---- the transformation, in place ----

  datatype Kind = LitKind | NotKind | NodeKind

  /** A node of the lowered expression; only the node at the root is ever changed. */
  class RteExpr {
    const kind: Kind
    const ref: string
    const op: Op
    var args: seq<RteExpr>
    ghost var repr: set<object>
    /** What the node stands for. */
    ghost var model: Expr

    ghost predicate Valid()
      reads this, repr
      decreases repr
    {
      && this in repr
      && (forall e | e in args :: e in repr && e.repr < repr && this !in e.repr && e.Valid())
      && Matches()
    }

    ghost predicate Matches()
      reads this, args
    {
      match kind
      case LitKind => model == Lit(ref)
      case NotKind => |args| == 1 && model == Neg(args[0].model)
      case NodeKind => args != [] && model == Node(op, Models(args))
    }

    lemma Shape()
      requires Valid()
      ensures this in repr
      ensures kind == NodeKind <==> model.Node?
      ensures kind == NodeKind ==> args != [] && op == model.op && Models(args) == model.args
    {
    }

    lemma Operand(i: nat)
      requires Valid() && i < |args|
      ensures args[i].Valid() && args[i].repr < repr && args[i] in repr
    {
    }

    constructor Literal(r: string)
      ensures Valid() && fresh(repr) && model == Lit(r)
    {
      kind, ref, op, args := LitKind, r, Op.And, [];
      repr, model := {this}, Lit(r);
    }

    constructor Not(e: RteExpr)
      requires e.Valid()
      ensures Valid() && fresh(repr - e.repr) && model == Neg(e.model)
    {
      kind, ref, op, args := NotKind, "", Op.And, [e];
      repr, model := {this} + e.repr, Neg(e.model);
    }

    constructor Binop(e: RteExpr, o: Op)
      requires e.Valid()
      ensures Valid() && fresh(repr - e.repr) && kind == NodeKind && op == o && model == Node(o, [e.model])
      ensures repr == {this} + e.repr
    {
      kind, ref, op, args := NodeKind, "", o, [e];
      repr, model := {this} + e.repr, Node(o, [e.model]);
    }

    method PushBack(e: RteExpr)
      requires Valid() && kind == NodeKind && e.Valid() && this !in e.repr
      modifies this
      ensures Valid() && repr == old(repr) + e.repr && model == Node(op, old(model).args + [e.model])
    {
      args := args + [e];
      repr, model := repr + e.repr, Node(op, model.args + [e.model]);
    }

    method PushFront(e: RteExpr)
      requires Valid() && kind == NodeKind && e.Valid() && this !in e.repr
      modifies this
      ensures Valid() && repr == old(repr) + e.repr && model == Node(op, [e.model] + old(model).args)
    {
      args := [e] + args;
      repr, model := repr + e.repr, Node(op, [e.model] + model.args);
    }

    /** Appends the operands of another node, one by one. */
    method Absorb(r: RteExpr)
      requires Valid() && kind == NodeKind && r.Valid() && this !in r.repr
      modifies this
      ensures Valid() && repr <= old(repr) + r.repr && model == Node(op, old(model).args + Models(r.args))
    {
      hide Valid, Matches;
      Shape();
      r.Shape();
      var i := 0;
      while i < |r.args|
        invariant 0 <= i <= |r.args| && unchanged(r) && r.Valid()
        invariant Valid() && repr <= old(repr) + r.repr
        invariant model == Node(op, old(model).args + Models(r.args)[..i])
      {
        r.Operand(i);
        PushBack(r.args[i]);
        i := i + 1;
      }
    }
  }

  ghost function Models(es: seq<RteExpr>): (ms: seq<Expr>)
    reads es
    ensures |ms| == |es| && forall k | 0 <= k < |es| :: ms[k] == es[k].model
  {
    seq(|es|, k requires 0 <= k < |es| reads es => es[k].model)
  }

  /** Builds the lowered expression, bottom up. */
  method CheckRteExpr(s: Source) returns (e: RteExpr)
    ensures e.Valid() && fresh(e.repr) && e.model == Lower(s)
  {
    hide RteExpr.Valid, RteExpr.Matches;
    if s.Literal? {
      e := new RteExpr.Literal(s.ref);
    } else if s.Not? {
      e := CheckRteExpr(s.arg);
      e := new RteExpr.Not(e);
    } else {
      var lo := CheckRteExpr(s.left);
      var ro := CheckRteExpr(s.right);
      lo.Shape();
      ro.Shape();
      e := Combine(s.op, lo, ro);
    }
  }

  /** Joins two operands, reusing whichever is already a node of the operator. */
  method Combine(op: Op, lo: RteExpr, ro: RteExpr) returns (e: RteExpr)
    requires lo.Valid() && ro.Valid() && lo.repr !! ro.repr
    modifies lo, ro
    ensures e.Valid() && fresh(e.repr - old(lo.repr) - old(ro.repr))
    ensures e.model == Merge(op, old(lo.model), old(ro.model))
  {
    hide RteExpr.Valid, RteExpr.Matches;
    lo.Shape();
    ro.Shape();
    if lo.kind == NodeKind && lo.op == op {
      if ro.kind == NodeKind {
        lo.Absorb(ro);
      } else {
        lo.PushBack(ro);
      }
      e := lo;
    } else if ro.kind == NodeKind && ro.op == op {
      ro.PushFront(lo);
      e := ro;
    } else {
      e := new RteExpr.Binop(lo, op);
      e.PushBack(ro);
    }
  }
}
