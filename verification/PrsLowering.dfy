/** Lowering of production-rule guards: binary AND and OR trees become n-ary nodes, built in
    place in the operands, and negations of internal nodes are bound to the literal. */
module PrsLowering {
  import opened LoopBounds
  import opened Options
  import opened Sequences

  datatype Op = And | Or

  /** An expression that precharges a node of the pull-down stack, and its direction. */
  datatype Precharge = Precharge(expr: string, dir: bool)

  /** The parsed guard.  A reference may mention loop variables, and so may loop bounds. */
  datatype Source =
    | Literal(ref: string, internal: bool)
    | Not(arg: Source)
    | Binary(op: Op, left: Source, right: Source, pchg: Option<Precharge>)
    | Loop(op: Op, ind: string, bounds: Bounds, body: Source)

  /** The lowered guard.  pre[k] precharges between args[k] and args[k + 1]. */
  datatype Expr =
    | Lit(ref: string, internal: bool, negated: bool)
    | Neg(arg: Expr)
    | AndNode(args: seq<Expr>, pre: seq<Option<Precharge>>)
    | OrNode(args: seq<Expr>)
    | LoopNode(op: Op, ind: string, bounds: Bounds, body: Expr)

  // ---- meaning ----

  /** What references and bounds stand for, given the values of the enclosing loop variables. */
  datatype World = World(node: (string, Env) -> bool, bound: (string, Env) -> int)

  predicate SourceValue(s: Source, w: World, env: Env) {
    match s
    case Literal(ref, _) => w.node(ref, env)
    case Not(a) => !SourceValue(a, w, env)
    case Binary(And, l, r, _) => SourceValue(l, w, env) && SourceValue(r, w, env)
    case Binary(Or, l, r, _) => SourceValue(l, w, env) || SourceValue(r, w, env)
    case Loop(And, ind, r, b) =>
      forall i {:trigger env[ind := i]} |
        FirstIndex(r, w.bound, env) <= i <= LastIndex(r, w.bound, env) ::
        SourceValue(b, w, env[ind := i])
    case Loop(Or, ind, r, b) =>
      exists i {:trigger env[ind := i]} |
        FirstIndex(r, w.bound, env) <= i <= LastIndex(r, w.bound, env) ::
        SourceValue(b, w, env[ind := i])
  }

  predicate Value(e: Expr, w: World, env: Env) {
    match e
    case Lit(ref, _, negated) => w.node(ref, env) != negated
    case Neg(a) => !Value(a, w, env)
    case AndNode(args, _) => All(args, w, env)
    case OrNode(args) => Any(args, w, env)
    case LoopNode(And, ind, r, b) =>
      forall i {:trigger env[ind := i]} |
        FirstIndex(r, w.bound, env) <= i <= LastIndex(r, w.bound, env) ::
        Value(b, w, env[ind := i])
    case LoopNode(Or, ind, r, b) =>
      exists i {:trigger env[ind := i]} |
        FirstIndex(r, w.bound, env) <= i <= LastIndex(r, w.bound, env) ::
        Value(b, w, env[ind := i])
  }

  predicate All(es: seq<Expr>, w: World, env: Env) {
    forall k | 0 <= k < |es| :: Value(es[k], w, env)
  }

  predicate Any(es: seq<Expr>, w: World, env: Env) {
    exists k | 0 <= k < |es| :: Value(es[k], w, env)
  }

  // ---- the transformation, on values ----

  function Nones(n: nat): seq<Option<Precharge>> {
    seq(n, k => None)
  }

  function Merge(op: Op, l: Expr, r: Expr, p: Option<Precharge>): Expr {
    match op
    case And =>
      if l.AndNode? && r.AndNode? then AndNode(l.args + r.args, l.pre + Nones(|r.args|))
      else if l.AndNode? then AndNode(l.args + [r], l.pre + [p])
      else if r.AndNode? then AndNode([l] + r.args, [p] + r.pre)
      else AndNode([l, r], [p])
    case Or =>
      if l.OrNode? && r.OrNode? then OrNode(l.args + r.args)
      else if l.OrNode? then OrNode(l.args + [r])
      else if r.OrNode? then OrNode([l] + r.args)
      else OrNode([l, r])
  }

  function Negate(e: Expr): Expr {
    if e.Lit? && e.internal then e.(negated := true) else Neg(e)
  }

  function Lower(s: Source): Expr {
    match s
    case Literal(ref, internal) => Lit(ref, internal, false)
    case Not(a) => Negate(Lower(a))
    case Binary(op, l, r, p) => Merge(op, Lower(l), Lower(r), p)
    case Loop(op, ind, bounds, b) => LoopNode(op, ind, bounds, Lower(b))
  }

  /** A loop variable may not have the name of one already in scope. */
  predicate Unshadowed(s: Source, scope: set<string>) {
    match s
    case Literal(_, _) => true
    case Not(a) => Unshadowed(a, scope)
    case Binary(_, l, r, _) => Unshadowed(l, scope) && Unshadowed(r, scope)
    case Loop(_, ind, _, b) => ind !in scope && Unshadowed(b, scope + {ind})
  }

  /** No loop has fixed bounds that are out of order. */
  predicate LoopsInOrder(s: Source) {
    match s
    case Literal(_, _) => true
    case Not(a) => LoopsInOrder(a)
    case Binary(_, l, r, _) => LoopsInOrder(l) && LoopsInOrder(r)
    case Loop(_, _, bounds, b) => !OutOfOrder(bounds) && LoopsInOrder(b)
  }

  /** All loops in a guard. */
  function LoopsIn(s: Source, around: seq<string>): seq<LoopSpot> {
    match s
    case Literal(_, _) => []
    case Not(a) => LoopsIn(a, around)
    case Binary(_, l, r, _) => LoopsIn(l, around) + LoopsIn(r, around)
    case Loop(_, ind, bounds, b) => [LoopSpot(around, ind, bounds)] + LoopsIn(b, around + [ind])
  }

  /** Exactly which guards are not refused: every loop has a name that is neither in scope nor
      that of a loop around it, and its bounds are in order. */
  lemma {:induction false} NotRefusedExactly(s: Source, scope: set<string>, around: seq<string>)
    ensures Unshadowed(s, scope + Named(around)) && LoopsInOrder(s)
            <==> forall l | l in LoopsIn(s, around) :: Sound(l, scope)
  {
    match s
    case Literal(_, _) =>
    case Not(a) => NotRefusedExactly(a, scope, around);
    case Binary(_, l, r, _) =>
      NotRefusedExactly(l, scope, around);
      NotRefusedExactly(r, scope, around);
    case Loop(_, ind, bounds, b) =>
      NotRefusedExactly(b, scope, around + [ind]);
      assert scope + Named(around) + {ind} == scope + Named(around + [ind]);
      assert Sound(LoopSpot(around, ind, bounds), scope) <==> ind !in scope + Named(around) && !OutOfOrder(bounds);
  }

  // ---- what the connectives mean ----

  /** AND and OR loops range over every index from lo to hi, both included. */
  lemma LoopValue(ind: string, b: Bounds, body: Source, lo: int, hi: int, w: World, env: Env)
    requires Ranges(b, w.bound, env, lo, hi)
    ensures SourceValue(Loop(And, ind, b, body), w, env)
            <==> forall i {:trigger env[ind := i]} | lo <= i <= hi :: SourceValue(body, w, env[ind := i])
    ensures SourceValue(Loop(Or, ind, b, body), w, env)
            <==> exists i {:trigger env[ind := i]} | lo <= i <= hi :: SourceValue(body, w, env[ind := i])
  {
    assert FirstIndex(b, w.bound, env) == lo && LastIndex(b, w.bound, env) == hi;
  }

  /** The nodes that loops become do too. */
  lemma LoopNodeValue(ind: string, b: Bounds, body: Expr, lo: int, hi: int, w: World, env: Env)
    requires Ranges(b, w.bound, env, lo, hi)
    ensures Value(LoopNode(And, ind, b, body), w, env)
            <==> forall i {:trigger env[ind := i]} | lo <= i <= hi :: Value(body, w, env[ind := i])
    ensures Value(LoopNode(Or, ind, b, body), w, env)
            <==> exists i {:trigger env[ind := i]} | lo <= i <= hi :: Value(body, w, env[ind := i])
  {
    assert FirstIndex(b, w.bound, env) == lo && LastIndex(b, w.bound, env) == hi;
  }

  /** The literals from left to right joined by one operator. */
  function Joined(op: Op, refs: seq<string>): Source
    requires refs != []
  {
    if |refs| == 1 then Literal(refs[0], false)
    else Binary(op, Joined(op, refs[..|refs| - 1]), Literal(refs[|refs| - 1], false), None)
  }

  /** AND is true if all are, OR if one is, and a negation if its operand is not. */
  lemma {:induction false} JoinedValue(refs: seq<string>, w: World, env: Env)
    requires refs != []
    ensures SourceValue(Joined(And, refs), w, env) <==> forall k | 0 <= k < |refs| :: w.node(refs[k], env)
    ensures SourceValue(Joined(Or, refs), w, env) <==> !forall k | 0 <= k < |refs| :: !w.node(refs[k], env)
    ensures SourceValue(Not(Joined(And, refs)), w, env) <==> !forall k | 0 <= k < |refs| :: w.node(refs[k], env)
    decreases |refs|
  {
    var n := |refs| - 1;
    if n > 0 {
      var init := refs[..n];
      JoinedValue(init, w, env);
      assert forall k | 0 <= k < n :: init[k] == refs[k];
      assert SourceValue(Joined(And, refs), w, env) <==> SourceValue(Joined(And, init), w, env) && w.node(refs[n], env);
      assert SourceValue(Joined(Or, refs), w, env) <==> SourceValue(Joined(Or, init), w, env) || w.node(refs[n], env);
    }
  }

  // ---- what the transformation keeps ----

  /** References from left to right. */
  function SourceLeaves(s: Source): seq<string> {
    match s
    case Literal(ref, _) => [ref]
    case Not(a) => SourceLeaves(a)
    case Binary(_, l, r, _) => SourceLeaves(l) + SourceLeaves(r)
    case Loop(_, _, _, b) => SourceLeaves(b)
  }

  function Leaves(e: Expr): seq<string> {
    match e
    case Lit(ref, _, _) => [ref]
    case Neg(a) => Leaves(a)
    case AndNode(args, _) => AllLeaves(args)
    case OrNode(args) => AllLeaves(args)
    case LoopNode(_, _, _, b) => Leaves(b)
  }

  function AllLeaves(es: seq<Expr>): seq<string> {
    if es == [] then [] else Leaves(es[0]) + AllLeaves(es[1..])
  }

  lemma {:induction false} AllLeavesConcat(a: seq<Expr>, b: seq<Expr>)
    ensures AllLeaves(a + b) == AllLeaves(a) + AllLeaves(b)
  {
    if a == [] {
      assert a + b == b;
    } else {
      assert (a + b)[1..] == a[1..] + b;
      AllLeavesConcat(a[1..], b);
    }
  }

  /** What a merged node takes over from an operand. */
  function Operands(op: Op, e: Expr): seq<Expr> {
    if (op == And && e.AndNode?) || (op == Or && e.OrNode?) then e.args else [e]
  }

  lemma OperandLeaves(op: Op, e: Expr)
    ensures AllLeaves(Operands(op, e)) == Leaves(e)
  {
    assert AllLeaves([e]) == Leaves(e) + AllLeaves([e][1..]);
  }

  lemma MergeOperands(op: Op, l: Expr, r: Expr, p: Option<Precharge>)
    ensures var e := Merge(op, l, r, p);
      && e.args == Operands(op, l) + Operands(op, r)
      && Leaves(e) == AllLeaves(e.args)
  {
    hide AllLeaves;
  }

  lemma MergeLeaves(op: Op, l: Expr, r: Expr, p: Option<Precharge>)
    ensures Leaves(Merge(op, l, r, p)) == Leaves(l) + Leaves(r)
  {
    hide Merge, Leaves, AllLeaves, Operands;
    MergeOperands(op, l, r, p);
    AllLeavesConcat(Operands(op, l), Operands(op, r));
    OperandLeaves(op, l);
    OperandLeaves(op, r);
  }

  lemma {:induction false} LeavesKept(s: Source)
    ensures Leaves(Lower(s)) == SourceLeaves(s)
  {
    match s
    case Literal(_, _) =>
    case Not(a) => LeavesKept(a);
    case Binary(op, l, r, p) =>
      LeavesKept(l);
      LeavesKept(r);
      MergeLeaves(op, Lower(l), Lower(r), p);
    case Loop(_, _, _, b) => LeavesKept(b);
  }

  /** No AND directly under an AND, no OR directly under an OR (loops excepted); every n-ary
      node has two operands at least, and an AND has room for a precharge between any two. */
  predicate Flat(e: Expr) {
    match e
    case Lit(_, _, _) => true
    case Neg(a) => Flat(a)
    case AndNode(args, pre) =>
      |args| >= 2 && |pre| + 1 == |args| && forall k | 0 <= k < |args| :: Flat(args[k]) && !args[k].AndNode?
    case OrNode(args) => |args| >= 2 && forall k | 0 <= k < |args| :: Flat(args[k]) && !args[k].OrNode?
    case LoopNode(_, _, _, b) => Flat(b)
  }

  lemma {:induction false} LowerIsFlat(s: Source)
    ensures Flat(Lower(s))
  {
    match s
    case Literal(_, _) =>
    case Not(a) => LowerIsFlat(a);
    case Binary(_, l, r, _) => LowerIsFlat(l); LowerIsFlat(r);
    case Loop(_, _, _, b) => LowerIsFlat(b);
  }

  predicate Apply(op: Op, a: bool, b: bool) {
    if op == And then a && b else a || b
  }

  lemma ConcatValue(a: seq<Expr>, b: seq<Expr>, w: World, env: Env)
    ensures All(a + b, w, env) <==> All(a, w, env) && All(b, w, env)
    ensures Any(a + b, w, env) <==> Any(a, w, env) || Any(b, w, env)
  {
    hide Value;
    assert forall k | 0 <= k < |a| :: (a + b)[k] == a[k];
    assert forall k | 0 <= k < |b| :: (a + b)[|a| + k] == b[k];
  }

  lemma SingleValue(e: Expr, w: World, env: Env)
    ensures All([e], w, env) == Any([e], w, env) == Value(e, w, env)
  {
    hide Value;
    assert [e][0] == e;
  }

  /** A merged node means the operator applied to its operands, precharges notwithstanding. */
  lemma MergeValue(op: Op, l: Expr, r: Expr, p: Option<Precharge>, w: World, env: Env)
    ensures Value(Merge(op, l, r, p), w, env) == Apply(op, Value(l, w, env), Value(r, w, env))
  {
    hide All, Any;
    MergeOperands(op, l, r, p);
    ConcatValue(Operands(op, l), Operands(op, r), w, env);
    SingleValue(l, w, env);
    SingleValue(r, w, env);
  }

  // ---- negated internal nodes ----

  /** s is a chain of negations on an internal node: how many there are. */
  function Chain(s: Source): Option<nat> {
    match s
    case Literal(_, internal) => if internal then Some(0) else None
    case Not(a) => (match Chain(a) case Some(n) => Some(n + 1) case None => None)
    case _ => None
  }

  /** Binding a negation to an internal node sets a flag, so only the first one of a chain
      is kept: chains of two, four, ... negations lose their value. */
  predicate NegationsKept(s: Source) {
    match s
    case Literal(_, _) => true
    case Not(a) => (match Chain(s) case Some(n) => n % 2 == 1 case None => NegationsKept(a))
    case Binary(_, l, r, _) => NegationsKept(l) && NegationsKept(r)
    case Loop(_, _, _, b) => NegationsKept(b)
  }

  lemma {:induction false} LowerChain(s: Source)
    ensures Chain(s).Some? <==> Lower(s).Lit? && Lower(s).internal
    ensures Chain(s).Some? ==> Lower(s).negated == (Chain(s).value > 0)
  {
    if s.Not? {
      LowerChain(s.arg);
    }
  }

  lemma {:induction false} ChainValue(s: Source, w: World, env: Env)
    requires Chain(s).Some?
    ensures Lower(s).Lit?
    ensures SourceValue(s, w, env) == (w.node(Lower(s).ref, env) == (Chain(s).value % 2 == 0))
  {
    LowerChain(s);
    if s.Not? {
      LowerChain(s.arg);
      ChainValue(s.arg, w, env);
    }
  }

  /** Lowering keeps the value of every guard whose negations are kept, in every world. */
  lemma {:induction false} ValueKept(s: Source, w: World, env: Env)
    requires NegationsKept(s)
    ensures Value(Lower(s), w, env) == SourceValue(s, w, env)
  {
    hide All, Any;
    match s
    case Literal(_, _) =>
    case Not(a) =>
      LowerChain(s);
      LowerChain(a);
      if Chain(s).Some? {
        ChainValue(s, w, env);
      } else {
        ValueKept(a, w, env);
      }
    case Binary(op, l, r, p) =>
      ValueKept(l, w, env);
      ValueKept(r, w, env);
      MergeValue(op, Lower(l), Lower(r), p, w, env);
    case Loop(op, ind, _, b) =>
      forall i {:trigger env[ind := i]}
        ensures Value(Lower(b), w, env[ind := i]) == SourceValue(b, w, env[ind := i])
      {
        ValueKept(b, w, env[ind := i]);
      }
  }

  /** The values that the operands of a node are to have, for the node to have value b: an
      operand that is kept is made neutral where the other one is not. */
  function Targets(op: Op, b: bool, keptLeft: bool, keptRight: bool): (bool, bool) {
    var neutral := op == And;
    if b == neutral || keptLeft == keptRight then (b, b)
    else if keptLeft then (neutral, b)
    else (b, neutral)
  }

  /** The nodes that are to be high for s to have value b, while the lowered form has that
      value too if the negations are kept, and the opposite one otherwise. */
  function Steer(s: Source, b: bool): map<string, bool>
  {
    match s
    case Literal(ref, _) => map[ref := b]
    case Not(a) => Steer(a, !b)
    case Binary(op, l, r, _) =>
      var t := Targets(op, b, NegationsKept(l), NegationsKept(r));
      Steer(l, t.0) + Steer(r, t.1)
    case Loop(_, _, _, body) => Steer(body, b)
  }

  lemma {:induction false} SteerLeaves(s: Source, b: bool)
    ensures forall x :: x in Steer(s, b) <==> x in SourceLeaves(s)
  {
    match s
    case Literal(_, _) =>
    case Not(a) => SteerLeaves(a, !b);
    case Binary(op, l, r, _) =>
      var (bl, br) := Targets(op, b, NegationsKept(l), NegationsKept(r));
      SteerLeaves(l, bl);
      SteerLeaves(r, br);
    case Loop(_, _, _, body) => SteerLeaves(body, b);
  }

  ghost predicate Follows(w: World, m: map<string, bool>) {
    (forall x, env | x in m :: w.node(x, env) == m[x]) && forall x, env :: w.bound(x, env) == 0
  }

  lemma {:induction false} SteerValues(s: Source, b: bool, w: World, env: Env)
    requires LoopsInOrder(s) && Distinct(SourceLeaves(s)) && Follows(w, Steer(s, b))
    ensures SourceValue(s, w, env) == b
    ensures Value(Lower(s), w, env) == (b == NegationsKept(s))
  {
    hide All, Any, Targets, Merge, SourceLeaves;
    match s
    case Literal(_, _) =>
    case Not(a) =>
      SourceLeavesNot(s);
      LowerChain(s);
      LowerChain(a);
      SteerValues(a, !b, w, env);
      if Chain(s).Some? {
        ChainValue(s, w, env);
      }
    case Binary(op, l, r, p) =>
      var (bl, br) := Targets(op, b, NegationsKept(l), NegationsKept(r));
      TargetsCombine(op, b, NegationsKept(l), NegationsKept(r));
      SteerParts(s, b, w);
      SteerValues(l, bl, w, env);
      SteerValues(r, br, w, env);
      MergeValue(op, Lower(l), Lower(r), p, w, env);
    case Loop(op, ind, bounds, body) =>
      SourceLeavesLoop(s);
      forall i {:trigger env[ind := i]}
        ensures SourceValue(body, w, env[ind := i]) == b
        ensures Value(Lower(body), w, env[ind := i]) == (b == NegationsKept(body))
      {
        SteerValues(body, b, w, env[ind := i]);
      }
      SameInAll(s, b, b == NegationsKept(body), w, env);
  }

  /** A loop whose body has the same value in every iteration has that value. */
  lemma SameInAll(s: Source, b: bool, c: bool, w: World, env: Env)
    requires s.Loop? && !OutOfOrder(s.bounds) && forall x, env :: w.bound(x, env) == 0
    requires forall i {:trigger env[s.ind := i]} :: SourceValue(s.body, w, env[s.ind := i]) == b
    requires forall i {:trigger env[s.ind := i]} :: Value(Lower(s.body), w, env[s.ind := i]) == c
    ensures SourceValue(s, w, env) == b && Value(Lower(s), w, env) == c
  {
    var i := FirstIndex(s.bounds, w.bound, env);
    assert SourceValue(s.body, w, env[s.ind := i]) == b && Value(Lower(s.body), w, env[s.ind := i]) == c;
  }

  lemma TargetsCombine(op: Op, b: bool, keptLeft: bool, keptRight: bool)
    ensures var t := Targets(op, b, keptLeft, keptRight);
      && Apply(op, t.0, t.1) == b
      && Apply(op, t.0 == keptLeft, t.1 == keptRight) == (b == (keptLeft && keptRight))
  {
  }

  lemma SourceLeavesNot(s: Source)
    requires s.Not?
    ensures SourceLeaves(s) == SourceLeaves(s.arg)
  {
  }

  lemma SourceLeavesLoop(s: Source)
    requires s.Loop?
    ensures SourceLeaves(s) == SourceLeaves(s.body)
  {
  }

  lemma SteerParts(s: Source, b: bool, w: World)
    requires s.Binary? && Distinct(SourceLeaves(s)) && Follows(w, Steer(s, b))
    ensures var t := Targets(s.op, b, NegationsKept(s.left), NegationsKept(s.right));
      && Follows(w, Steer(s.left, t.0)) && Follows(w, Steer(s.right, t.1))
      && Distinct(SourceLeaves(s.left)) && Distinct(SourceLeaves(s.right))
  {
    hide Targets;
    DistinctParts(SourceLeaves(s.left), SourceLeaves(s.right));
    var t := Targets(s.op, b, NegationsKept(s.left), NegationsKept(s.right));
    SteerLeaves(s.left, t.0);
    SteerLeaves(s.right, t.1);
  }

  /** Exactly when lowering keeps the value: for a guard that is not refused and mentions each
      node once, if and only if its negations are kept. */
  lemma ValueKeptExactly(s: Source)
    requires LoopsInOrder(s) && Distinct(SourceLeaves(s))
    ensures (forall w, env :: Value(Lower(s), w, env) == SourceValue(s, w, env)) <==> NegationsKept(s)
  {
    if NegationsKept(s) {
      forall w, env
        ensures Value(Lower(s), w, env) == SourceValue(s, w, env)
      {
        ValueKept(s, w, env);
      }
    } else {
      var m := Steer(s, true);
      var w := World((x, env) => x in m && m[x], (x, env) => 0);
      SteerValues(s, true, w, map[]);
    }
  }

  /** The source with every chain of negations on an internal node cut down to one. */
  function Collapse(s: Source): Source {
    match s
    case Literal(_, _) => s
    case Not(a) => if Chain(a).Some? && a.Not? then Collapse(a) else Not(Collapse(a))
    case Binary(op, l, r, p) => Binary(op, Collapse(l), Collapse(r), p)
    case Loop(op, ind, bounds, b) => Loop(op, ind, bounds, Collapse(b))
  }

  /** What lowering makes of any guard: its value is that of the source with such chains cut
      down, whether or not that is what was meant. */
  lemma {:induction false} ValueCollapsed(s: Source, w: World, env: Env)
    ensures Value(Lower(s), w, env) == SourceValue(Collapse(s), w, env)
    ensures Chain(Collapse(s)).Some? <==> Chain(s).Some?
    ensures Chain(s).Some? ==> Chain(Collapse(s)).value == if Chain(s).value == 0 then 0 else 1
  {
    hide All, Any;
    match s
    case Literal(_, _) =>
    case Not(a) =>
      LowerChain(s);
      LowerChain(a);
      ValueCollapsed(a, w, env);
    case Binary(op, l, r, p) =>
      ValueCollapsed(l, w, env);
      ValueCollapsed(r, w, env);
      MergeValue(op, Lower(l), Lower(r), p, w, env);
    case Loop(op, ind, _, b) =>
      forall i {:trigger env[ind := i]}
        ensures Value(Lower(b), w, env[ind := i]) == SourceValue(Collapse(b), w, env[ind := i])
      {
        ValueCollapsed(b, w, env[ind := i]);
      }
  }

  /** ~(~@n) becomes the same literal as ~@n. */
  lemma DoubleNegationExample()
    ensures var s := Not(Not(Literal("n", true)));
      && Unshadowed(s, {}) && LoopsInOrder(s) && Distinct(SourceLeaves(s)) && !NegationsKept(s)
      && Lower(s) == Lower(s.arg)
      && var w := World((x, e) => true, (x, e) => 0); SourceValue(s, w, map[]) && !Value(Lower(s), w, map[])
  {
  }

  // ---- precharges ----

  predicate IsAnd(s: Source) {
    s.Binary? && s.op == And
  }

  /** The precharges written between the operands of the AND at the root. */
  function WrittenPre(s: Source): seq<Option<Precharge>> {
    if IsAnd(s) then WrittenPre(s.left) + [s.pchg] + WrittenPre(s.right) else []
  }

  function LoweredPre(s: Source): seq<Option<Precharge>> {
    if Lower(s).AndNode? then Lower(s).pre else []
  }

  /** When an AND absorbs another one as its right operand, only empty precharges survive. */
  predicate PrechargesKept(s: Source) {
    if !IsAnd(s) then true
    else if IsAnd(s.left) && IsAnd(s.right) then
      PrechargesKept(s.left) && s.pchg == None && WrittenPre(s.right) == Nones(|WrittenPre(s.right)|)
    else PrechargesKept(s.left) && PrechargesKept(s.right)
  }

  lemma {:induction false} LoweredPreLength(s: Source)
    ensures Lower(s).AndNode? <==> IsAnd(s)
    ensures |LoweredPre(s)| == |WrittenPre(s)|
    ensures IsAnd(s) ==> |Lower(s).args| == |WrittenPre(s)| + 1
  {
    match s
    case Binary(And, l, r, _) => LoweredPreLength(l); LoweredPreLength(r);
    case _ =>
  }

  /** Exactly when the precharges of an AND end up between the operands they were written for. */
  lemma {:induction false} PrechargesKeptExactly(s: Source)
    ensures LoweredPre(s) == WrittenPre(s) <==> PrechargesKept(s)
  {
    LoweredPreLength(s);
    if IsAnd(s) {
      var l, r := s.left, s.right;
      LoweredPreLength(l);
      LoweredPreLength(r);
      PrechargesKeptExactly(l);
      PrechargesKeptExactly(r);
      var front, back := WrittenPre(l), WrittenPre(r);
      assert WrittenPre(s)[..|front|] == front;
      assert WrittenPre(s)[|front|] == s.pchg;
      assert WrittenPre(s)[|front| + 1..] == back;
      assert LoweredPre(s)[..|front|] == LoweredPre(l);
      if IsAnd(l) && IsAnd(r) {
        assert LoweredPre(s)[|front|] == None;
        assert LoweredPre(s)[|front| + 1..] == Nones(|back|);
      } else {
        assert LoweredPre(s)[|front|] == s.pchg;
        assert LoweredPre(s)[|front| + 1..] == LoweredPre(r);
      }
      assert LoweredPre(s) == LoweredPre(s)[..|front|] + [LoweredPre(s)[|front|]] + LoweredPre(s)[|front| + 1..];
    }
  }

  /** In (a & b) & (c & d), with a precharge between c and d, the precharge is lost. */
  lemma LostPrechargeExample()
    ensures var p := Some(Precharge("e", true));
      var left := Binary(And, Literal("a", false), Literal("b", false), None);
      var right := Binary(And, Literal("c", false), Literal("d", false), p);
      var s := Binary(And, left, right, None);
      && Unshadowed(s, {}) && LoopsInOrder(s) && !PrechargesKept(s)
      && WrittenPre(s) == [None, None, p] && LoweredPre(s) == [None, None, None]
  {
    var p := Some(Precharge("e", true));
    var left := Binary(And, Literal("a", false), Literal("b", false), None);
    var right := Binary(And, Literal("c", false), Literal("d", false), p);
    var s := Binary(And, left, right, None);
    assert WrittenPre(left) == [None] && WrittenPre(right) == [p];
    assert WrittenPre(s) == [None] + [None] + [p];
    assert Lower(left).pre == [None] && |Lower(right).args| == 2;
    assert Lower(s).pre == [None] + Nones(2);
    assert Nones(1)[0] == None && WrittenPre(right)[0] != None;
  }

  // ---- the transformation, in place ----

  datatype Kind = LitKind | NotKind | AndKind | OrKind | AndLoopKind | OrLoopKind

  /** A node of the lowered guard.  AND and OR nodes grow at either end while the guard is
      being built; only the node at the root is ever changed. */
  class PrsExpr {
    const kind: Kind
    /** A literal's reference; of a loop, the variable and the bounds. */
    const ref: string
    const internal: bool
    const bounds: Bounds
    var negated: bool
    /** Operands; one for a negation or a loop. */
    var args: seq<PrsExpr>
    var pre: seq<Option<Precharge>>
    ghost var repr: set<object>
    /** What the node stands for. */
    ghost var model: Expr

    ghost predicate Valid()
      reads this, repr
      decreases repr
    {
      && this in repr
      && (forall e | e in args :: e in repr && e.repr < repr && this !in e.repr && e.Valid())
      && Matches()
    }

    lemma Operand(i: nat)
      requires Valid() && i < |args|
      ensures args[i].Valid() && args[i].repr < repr && args[i] in repr
    {
    }

    /** The kind of a node, and its operands, show in what it stands for. */
    lemma Shape()
      requires Valid()
      ensures this in repr
      ensures kind == LitKind <==> model.Lit?
      ensures kind == LitKind ==> internal == model.internal
      ensures kind == AndKind <==> model.AndNode?
      ensures kind == OrKind <==> model.OrNode?
      ensures kind == AndKind || kind == OrKind ==> |args| == |model.args| && Models(args) == model.args
    {
    }

    ghost predicate Matches()
      reads this, args
    {
      match kind
      case LitKind => model == Lit(ref, internal, negated) && args == []
      case NotKind => |args| == 1 && model == Neg(args[0].model)
      case AndKind => model == AndNode(Models(args), pre)
      case OrKind => model == OrNode(Models(args))
      case AndLoopKind => |args| == 1 && model == LoopNode(Op.And, ref, bounds, args[0].model)
      case OrLoopKind => |args| == 1 && model == LoopNode(Op.Or, ref, bounds, args[0].model)
    }

    constructor Literal(r: string, i: bool)
      ensures Valid() && fresh(repr) && model == Lit(r, i, false)
    {
      kind, ref, internal, bounds := LitKind, r, i, Computed("", "");
      negated, args, pre := false, [], [];
      repr, model := {this}, Lit(r, i, false);
    }

    constructor Not(e: PrsExpr)
      requires e.Valid()
      ensures Valid() && fresh(repr - e.repr) && model == Neg(e.model)
    {
      kind, ref, internal, bounds := NotKind, "", false, Computed("", "");
      negated, args, pre := false, [e], [];
      repr, model := {this} + e.repr, Neg(e.model);
    }

    /** An AND with a single operand; PushBack adds the second one. */
    constructor And(e: PrsExpr)
      requires e.Valid()
      ensures Valid() && fresh(repr - e.repr) && kind == AndKind && model == AndNode([e.model], []) && args == [e]
    {
      kind, ref, internal, bounds := AndKind, "", false, Computed("", "");
      negated, args, pre := false, [e], [];
      repr, model := {this} + e.repr, AndNode([e.model], []);
    }

    constructor Or()
      ensures Valid() && fresh(repr) && kind == OrKind && model == OrNode([])
    {
      kind, ref, internal, bounds := OrKind, "", false, Computed("", "");
      negated, args, pre := false, [], [];
      repr, model := {this}, OrNode([]);
    }

    constructor Loop(op: Op, ind: string, b: Bounds, body: PrsExpr)
      requires body.Valid()
      ensures Valid() && fresh(repr - body.repr) && model == LoopNode(op, ind, b, body.model)
    {
      kind := if op == Op.And then AndLoopKind else OrLoopKind;
      ref, internal, bounds := ind, false, b;
      negated, args, pre := false, [body], [];
      repr, model := {this} + body.repr, LoopNode(op, ind, b, body.model);
    }

    method NegateNode()
      requires Valid() && kind == LitKind
      modifies this
      ensures Valid() && repr == old(repr) && model == old(model).(negated := true)
    {
      negated := true;
      model := model.(negated := true);
    }

    method PushBack(e: PrsExpr, p: Option<Precharge>)
      requires Valid() && kind == AndKind && e.Valid() && this !in e.repr
      modifies this
      ensures Valid() && repr == old(repr) + e.repr && args == old(args) + [e]
      ensures model == AndNode(old(model).args + [e.model], old(model).pre + [p])
    {
      args, pre := args + [e], pre + [p];
      repr, model := repr + e.repr, AndNode(model.args + [e.model], pre);
    }

    /** Without a precharge; the first operand of an AND has no place for one. */
    method PushBackPlain(e: PrsExpr)
      requires Valid() && (kind == AndKind || kind == OrKind) && e.Valid() && this !in e.repr
      modifies this
      ensures Valid() && repr == old(repr) + e.repr && args == old(args) + [e]
      ensures kind == OrKind ==> model == OrNode(old(model).args + [e.model])
      ensures kind == AndKind ==>
        model == AndNode(old(model).args + [e.model], old(model).pre + if old(args) == [] then [] else [None])
    {
      if kind == AndKind && args != [] {
        pre := pre + [None];
      }
      args := args + [e];
      repr := repr + e.repr;
      model := if kind == AndKind then AndNode(model.args + [e.model], pre) else OrNode(model.args + [e.model]);
    }

    method PushFront(e: PrsExpr, p: Option<Precharge>)
      requires Valid() && (kind == AndKind || kind == OrKind) && e.Valid() && this !in e.repr
      modifies this
      ensures Valid() && repr == old(repr) + e.repr
      ensures kind == OrKind ==> model == OrNode([e.model] + old(model).args)
      ensures kind == AndKind ==> model == AndNode([e.model] + old(model).args, [p] + old(model).pre)
    {
      args := [e] + args;
      if kind == AndKind {
        pre := [p] + pre;
      }
      repr := repr + e.repr;
      model := if kind == AndKind then AndNode([e.model] + model.args, pre) else OrNode([e.model] + model.args);
    }

    /** Appends the operands of another node, one by one. */
    method Absorb(r: PrsExpr)
      requires Valid() && (kind == AndKind || kind == OrKind) && args != []
      requires r.Valid() && this !in r.repr
      modifies this
      ensures Valid() && repr <= old(repr) + r.repr
      ensures kind == OrKind ==> model == OrNode(old(model).args + Models(r.args))
      ensures kind == AndKind ==> model == AndNode(old(model).args + Models(r.args), old(model).pre + Nones(|r.args|))
    {
      hide Valid, Matches, Nones;
      Shape();
      r.Shape();
      NonesGrow(0);
      ghost var ms, before := Models(r.args), model;
      forall k | 0 <= k < |r.args|
        ensures r.args[k] != this
      {
        r.Operand(k);
      }
      var i := 0;
      while i < |r.args|
        invariant 0 <= i <= |r.args| && args != [] && unchanged(r) && r.Valid()
        invariant Models(r.args) == ms && Valid() && repr <= old(repr) + r.repr
        invariant kind == OrKind ==> model == OrNode(before.args + ms[..i])
        invariant kind == AndKind ==> model == AndNode(before.args + ms[..i], before.pre + Nones(i))
      {
        r.Operand(i);
        PushBackPlain(r.args[i]);
        NonesGrow(i);
        assert ms[..i + 1] == ms[..i] + [r.args[i].model];
        i := i + 1;
      }
      assert ms[..|ms|] == ms;
    }
  }

  lemma NonesGrow(n: nat)
    ensures Nones(0) == [] && Nones(n + 1) == Nones(n) + [None]
  {
  }

  ghost function Models(es: seq<PrsExpr>): (ms: seq<Expr>)
    reads es
    ensures |ms| == |es| && forall k | 0 <= k < |es| :: ms[k] == es[k].model
  {
    seq(|es|, k requires 0 <= k < |es| reads es => es[k].model)
  }

  /** Builds the lowered guard, bottom up; there is none when a loop has bounds out of order or
      shadows a name in scope. */
  method CheckPrsExpr(s: Source, scope: set<string>) returns (e: PrsExpr?)
    ensures e != null <==> Unshadowed(s, scope) && LoopsInOrder(s)
    ensures e != null <==> forall l | l in LoopsIn(s, []) :: Sound(l, scope)
    ensures e != null ==> e.Valid() && fresh(e.repr) && e.model == Lower(s)
  {
    hide PrsExpr.Valid, PrsExpr.Matches, LoopsIn;
    NotRefusedExactly(s, scope, []);
    assert scope + Named([]) == scope;
    if s.Literal? {
      e := new PrsExpr.Literal(s.ref, s.internal);
    } else if s.Not? {
      e := CheckPrsExpr(s.arg, scope);
      if e != null {
        e.Shape();
        if e.kind == LitKind && e.internal {
          e.NegateNode();
        } else {
          e := new PrsExpr.Not(e);
        }
      }
    } else if s.Binary? {
      var lo := CheckPrsExpr(s.left, scope);
      var ro := CheckPrsExpr(s.right, scope);
      if lo == null || ro == null {
        return null;
      }
      LowerIsFlat(s.left);
      LowerIsFlat(s.right);
      lo.Shape();
      ro.Shape();
      e := Combine(s.op, lo, ro, s.pchg);
    } else {
      if OutOfOrder(s.bounds) || s.ind in scope {
        return null;
      }
      e := CheckPrsExpr(s.body, scope + {s.ind});
      if e != null {
        e.Shape();
        e := new PrsExpr.Loop(s.op, s.ind, s.bounds, e);
      }
    }
  }

  /** Joins two operands, reusing whichever is already a node of the operator. */
  method Combine(op: Op, lo: PrsExpr, ro: PrsExpr, p: Option<Precharge>) returns (e: PrsExpr)
    requires lo.Valid() && ro.Valid() && lo.repr !! ro.repr
    requires Flat(lo.model) && Flat(ro.model)
    modifies lo, ro
    ensures e.Valid() && fresh(e.repr - old(lo.repr) - old(ro.repr))
    ensures e.model == Merge(op, old(lo.model), old(ro.model), p)
  {
    hide PrsExpr.Valid, PrsExpr.Matches;
    lo.Shape();
    ro.Shape();
    var kind := if op == And then AndKind else OrKind;
    if lo.kind == kind {
      if ro.kind == kind {
        lo.Absorb(ro);
      } else if op == And {
        lo.PushBack(ro, p);
      } else {
        lo.PushBackPlain(ro);
      }
      e := lo;
    } else if ro.kind == kind {
      ro.PushFront(lo, p);
      e := ro;
    } else if op == And {
      e := new PrsExpr.And(lo);
      e.PushBack(ro, p);
    } else {
      e := new PrsExpr.Or();
      e.PushBackPlain(lo);
      e.PushBackPlain(ro);
    }
  }
}
