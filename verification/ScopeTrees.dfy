/** Instances, production rules and spec directives may be interleaved in nested loops and
    conditionals.  Each of the three languages gets a tree of its own, with loops and
    conditionals only where that language has something in them. */
module ScopeTrees {
  import opened LoopBounds

  /** None is an else-clause. */
  datatype Guard = Else | If(expr: string)
  datatype Clause<T> = Clause(guard: Guard, body: seq<T>)

  datatype Rule =
    | Simple(text: string, good: bool)
    | RuleLoop(ind: string, bounds: Bounds, rules: seq<Rule>)
    | RuleConditional(clauses: seq<Clause<Rule>>)
    | Nest(rules: seq<Rule>)
    | Subcircuit(name: string, rules: seq<Rule>)

  datatype Item =
    | Instance(text: string, good: bool)
    | PrsBody(rules: seq<Rule>)
    | SpecBody(directives: seq<Directive>)
    | Loop(ind: string, bounds: Bounds, body: seq<Item>)
    | Conditional(clauses: seq<Clause<Item>>)
  datatype Directive = Directive(text: string, good: bool)

  datatype Language = Instances | Rules | Directives

  /** What is built.  Every clause of a conditional has its guard at the same position. */
  datatype Tree =
    | Leaf(text: string)
    | LoopTree(ind: string, bounds: Bounds, body: seq<Tree>)
    | CondTree(guards: seq<Guard>, clauses: seq<Body>)
    | SetTree(body: seq<Tree>)
    | SubTree(name: string, body: seq<Tree>)
  datatype Body = Body(trees: seq<Tree>)

  // ---- unrolling ----

  /** What guards and loop bounds evaluate to, given the values of the loop variables. */
  datatype World = World(guard: (string, Env) -> bool, bound: (string, Env) -> int)
  /** Something unrolled, under the loop variables of that moment. */
  datatype Event = Event(text: string, env: Env)

  predicate Holds(g: Guard, w: World, env: Env) {
    g.Else? || w.guard(g.expr, env)
  }

  /** The position of the first guard that holds, or the number of guards. */
  function FirstTrue(guards: seq<Guard>, w: World, env: Env): (k: nat)
    ensures k <= |guards|
    ensures forall j | 0 <= j < k :: !Holds(guards[j], w, env)
    ensures k < |guards| ==> Holds(guards[k], w, env)
  {
    if guards == [] || Holds(guards[0], w, env) then 0
    else
      var k := FirstTrue(guards[1..], w, env);
      assert forall j | 1 <= j < k + 1 :: guards[j] == guards[1..][j - 1];
      k + 1
  }

  function Unroll(ts: seq<Tree>, w: World, env: Env): seq<Event>
    decreases ts, 0
  {
    if ts == [] then [] else UnrollOne(ts[0], w, env) + Unroll(ts[1..], w, env)
  }

  function UnrollOne(t: Tree, w: World, env: Env): seq<Event>
    decreases t, 0
  {
    match t
    case Leaf(text) => [Event(text, env)]
    case LoopTree(_, b, _) => UnrollFrom(t, FirstIndex(b, w.bound, env), LastIndex(b, w.bound, env), w, env)
    case CondTree(guards, clauses) =>
      var k := FirstTrue(guards, w, env);
      if k < |guards| && k < |clauses| then Unroll(clauses[k].trees, w, env) else []
    case SetTree(body) => Unroll(body, w, env)
    case SubTree(_, body) => Unroll(body, w, env)
  }

  function UnrollFrom(t: Tree, p: int, max: int, w: World, env: Env): seq<Event>
    requires t.LoopTree?
    decreases t.body, 1, max - p + 1
  {
    if p > max then [] else Unroll(t.body, w, env[t.ind := p]) + UnrollFrom(t, p + 1, max, w, env)
  }

  // ---- what each language means in the source ----

  function RulesMean(rs: seq<Rule>, w: World, env: Env): seq<Event>
    decreases rs, 0
  {
    if rs == [] then [] else RuleMeans(rs[0], w, env) + RulesMean(rs[1..], w, env)
  }

  function RuleMeans(r: Rule, w: World, env: Env): seq<Event>
    decreases r, 0
  {
    match r
    case Simple(text, _) => [Event(text, env)]
    case RuleLoop(_, b, _) => RulesFrom(r, FirstIndex(b, w.bound, env), LastIndex(b, w.bound, env), w, env)
    case RuleConditional(cs) =>
      var k := FirstTrue(Guards(cs), w, env);
      if k < |cs| then RulesMean(cs[k].body, w, env) else []
    case Nest(rules) => RulesMean(rules, w, env)
    case Subcircuit(_, rules) => RulesMean(rules, w, env)
  }

  function RulesFrom(r: Rule, p: int, max: int, w: World, env: Env): seq<Event>
    requires r.RuleLoop?
    decreases r.rules, 1, max - p + 1
  {
    if p > max then [] else RulesMean(r.rules, w, env[r.ind := p]) + RulesFrom(r, p + 1, max, w, env)
  }

  function Guards<T>(cs: seq<Clause<T>>): (gs: seq<Guard>)
    ensures |gs| == |cs| && forall k | 0 <= k < |cs| :: gs[k] == cs[k].guard
  {
    seq(|cs|, k requires 0 <= k < |cs| => cs[k].guard)
  }

  function DirectivesMean(ds: seq<Directive>, env: Env): (es: seq<Event>)
    ensures |es| == |ds| && forall k | 0 <= k < |ds| :: es[k] == Event(ds[k].text, env)
  {
    seq(|ds|, k requires 0 <= k < |ds| => Event(ds[k].text, env))
  }

  /** The projection of the unrolled source on one language: the others are passed over,
      loops and guards are evaluated as they come. */
  function ItemsMean(l: Language, items: seq<Item>, w: World, env: Env): seq<Event>
    decreases items, 0
  {
    if items == [] then [] else ItemMeans(l, items[0], w, env) + ItemsMean(l, items[1..], w, env)
  }

  function ItemMeans(l: Language, i: Item, w: World, env: Env): seq<Event>
    decreases i, 0
  {
    match i
    case Instance(text, _) => if l.Instances? then [Event(text, env)] else []
    case PrsBody(rules) => if l.Rules? then RulesMean(rules, w, env) else []
    case SpecBody(ds) => if l.Directives? then DirectivesMean(ds, env) else []
    case Loop(_, b, _) => ItemsFrom(l, i, FirstIndex(b, w.bound, env), LastIndex(b, w.bound, env), w, env)
    case Conditional(cs) =>
      var k := FirstTrue(Guards(cs), w, env);
      if k < |cs| then ItemsMean(l, cs[k].body, w, env) else []
  }

  function ItemsFrom(l: Language, i: Item, p: int, max: int, w: World, env: Env): seq<Event>
    requires i.Loop?
    decreases i.body, 1, max - p + 1
  {
    if p > max then [] else ItemsMean(l, i.body, w, env[i.ind := p]) + ItemsFrom(l, i, p + 1, max, w, env)
  }

  // ---- the trees that are built ----

  /** What checking rules leaves behind: the trees appended, and whether it was cut short by
      an error. */
  datatype Built = Built(trees: seq<Tree>, threw: bool)

  function BuildRules(rs: seq<Rule>, scope: set<string>): Built
    decreases rs, 0
  {
    if rs == [] then Built([], false)
    else
      var first := BuildRule(rs[0], scope);
      if first.threw then first
      else
        var rest := BuildRules(rs[1..], scope);
        Built(first.trees + rest.trees, rest.threw)
  }

  /** A loop among rules is reported and skipped if its bounds are out of order or its name is
      already in scope. */
  predicate Skipped(r: Rule, scope: set<string>)
    requires r.RuleLoop?
  {
    OutOfOrder(r.bounds) || r.ind in scope
  }

  /** An error below a loop leaves the loop behind, empty or not; an error in a clause of a
      conditional goes no further than that clause. */
  function BuildRule(r: Rule, scope: set<string>): Built
    decreases r, 0
  {
    match r
    case Simple(text, good) => if good then Built([Leaf(text)], false) else Built([], true)
    case RuleLoop(ind, bounds, rules) =>
      if Skipped(r, scope) then Built([], false)
      else
        var b := BuildRules(rules, scope + {ind});
        Built(if b.trees == [] && !b.threw then [] else [LoopTree(ind, bounds, b.trees)], b.threw)
    case RuleConditional(cs) =>
      var bodies := RuleBodies(cs, scope);
      Built(if AllEmpty(bodies) then [] else [CondTree(Guards(cs), bodies)], false)
    case Nest(rules) => BuildRules(rules, scope)
    case Subcircuit(name, rules) =>
      var b := BuildRules(rules, scope);
      Built(if b.trees == [] && !b.threw then [] else [SubTree(name, b.trees)], b.threw)
  }

  function RuleBodies(cs: seq<Clause<Rule>>, scope: set<string>): (bodies: seq<Body>)
    ensures |bodies| == |cs|
    ensures forall k | 0 <= k < |cs| :: bodies[k] == Body(BuildRules(cs[k].body, scope).trees)
    decreases cs, 0
  {
    seq(|cs|, k requires 0 <= k < |cs| => Body(BuildRules(cs[k].body, scope).trees))
  }

  predicate AllEmpty(bodies: seq<Body>) {
    forall k | 0 <= k < |bodies| :: bodies[k].trees == []
  }

  function BuildDirectives(ds: seq<Directive>): (ts: seq<Tree>)
    ensures |ts| == |ds| && forall k | 0 <= k < |ds| :: ts[k] == Leaf(ds[k].text)
  {
    seq(|ds|, k requires 0 <= k < |ds| => Leaf(ds[k].text))
  }

  function Build(l: Language, items: seq<Item>, scope: set<string>): seq<Tree>
    decreases items, 0
  {
    if items == [] then [] else BuildItem(l, items[0], scope) + Build(l, items[1..], scope)
  }

  function BuildItem(l: Language, i: Item, scope: set<string>): seq<Tree>
    decreases i, 0
  {
    match i
    case Instance(text, _) => if l.Instances? then [Leaf(text)] else []
    case PrsBody(rules) =>
      var b := BuildRules(rules, scope).trees;
      if l.Rules? && b != [] then [SetTree(b)] else []
    case SpecBody(ds) => if l.Directives? then BuildDirectives(ds) else []
    case Loop(ind, bounds, body) =>
      var b := Build(l, body, scope + {ind});
      if b == [] then [] else [LoopTree(ind, bounds, b)]
    case Conditional(cs) =>
      var bodies := Bodies(l, cs, scope);
      if AllEmpty(bodies) then [] else [CondTree(Guards(cs), bodies)]
  }

  function Bodies(l: Language, cs: seq<Clause<Item>>, scope: set<string>): (bodies: seq<Body>)
    ensures |bodies| == |cs|
    ensures forall k | 0 <= k < |cs| :: bodies[k] == Body(Build(l, cs[k].body, scope))
    decreases cs, 0
  {
    seq(|cs|, k requires 0 <= k < |cs| => Body(Build(l, cs[k].body, scope)))
  }

  /** An error in the rules that is passed on: not one in a loop that is skipped, nor one in a
      clause of a conditional. */
  predicate Escapes(rs: seq<Rule>, scope: set<string>)
    decreases rs, 0
  {
    exists k | 0 <= k < |rs| :: EscapesRule(rs[k], scope)
  }

  predicate EscapesRule(r: Rule, scope: set<string>)
    decreases r, 0
  {
    match r
    case Simple(_, good) => !good
    case RuleLoop(ind, _, rules) => !Skipped(r, scope) && Escapes(rules, scope + {ind})
    case RuleConditional(_) => false
    case Nest(rules) => Escapes(rules, scope)
    case Subcircuit(_, rules) => Escapes(rules, scope)
  }

  lemma EscapesSplit(rs: seq<Rule>, scope: set<string>)
    requires rs != []
    ensures Escapes(rs, scope) <==> EscapesRule(rs[0], scope) || Escapes(rs[1..], scope)
  {
    assert rs == [rs[0]] + rs[1..];
  }

  /** Checking rules is cut short exactly by an error that is passed on. */
  lemma {:induction false} ThrewExactly(rs: seq<Rule>, scope: set<string>)
    ensures BuildRules(rs, scope).threw <==> Escapes(rs, scope)
    decreases rs, 0
  {
    if rs != [] {
      EscapesSplit(rs, scope);
      RuleThrewExactly(rs[0], scope);
      ThrewExactly(rs[1..], scope);
    }
  }

  lemma {:induction false} RuleThrewExactly(r: Rule, scope: set<string>)
    ensures BuildRule(r, scope).threw <==> EscapesRule(r, scope)
    decreases r, 0
  {
    match r
    case Simple(_, _) =>
    case RuleLoop(ind, _, rules) => ThrewExactly(rules, scope + {ind});
    case RuleConditional(_) =>
    case Nest(rules) => ThrewExactly(rules, scope);
    case Subcircuit(_, rules) => ThrewExactly(rules, scope);
  }

  /** The source is accepted: nothing in it is in error, and no loop around items has bounds
      out of order or reuses a name in scope.  Loops around rules are not refused for that. */
  predicate Accepted(items: seq<Item>, scope: set<string>)
    decreases items, 0
  {
    forall k | 0 <= k < |items| :: AcceptedItem(items[k], scope)
  }

  predicate AcceptedItem(i: Item, scope: set<string>)
    decreases i, 0
  {
    match i
    case Instance(_, good) => good
    case PrsBody(rules) => !Escapes(rules, scope)
    case SpecBody(ds) => forall k | 0 <= k < |ds| :: ds[k].good
    case Loop(ind, bounds, body) => !OutOfOrder(bounds) && ind !in scope && Accepted(body, scope + {ind})
    case Conditional(cs) => forall k | 0 <= k < |cs| :: Accepted(cs[k].body, scope)
  }

  // ---- rules: what is lost ----

  predicate GoodRules(rs: seq<Rule>)
    decreases rs, 0
  {
    forall k | 0 <= k < |rs| :: GoodRule(rs[k])
  }

  predicate GoodRule(r: Rule)
    decreases r, 0
  {
    match r
    case Simple(_, good) => good
    case RuleLoop(_, _, rules) => GoodRules(rules)
    case RuleConditional(cs) => forall k | 0 <= k < |cs| :: GoodRules(cs[k].body)
    case Nest(rules) => GoodRules(rules)
    case Subcircuit(_, rules) => GoodRules(rules)
  }

  /** The trees of everything that is written, errors and names in scope notwithstanding. */
  function IdealRules(rs: seq<Rule>): seq<Tree>
    decreases rs, 0
  {
    if rs == [] then [] else IdealRule(rs[0]) + IdealRules(rs[1..])
  }

  function IdealRule(r: Rule): seq<Tree>
    decreases r, 0
  {
    match r
    case Simple(text, _) => [Leaf(text)]
    case RuleLoop(ind, bounds, rules) =>
      if IdealRules(rules) == [] then [] else [LoopTree(ind, bounds, IdealRules(rules))]
    case RuleConditional(cs) =>
      var bodies := IdealBodies(cs);
      if AllEmpty(bodies) then [] else [CondTree(Guards(cs), bodies)]
    case Nest(rules) => IdealRules(rules)
    case Subcircuit(name, rules) =>
      if IdealRules(rules) == [] then [] else [SubTree(name, IdealRules(rules))]
  }

  function IdealBodies(cs: seq<Clause<Rule>>): (bodies: seq<Body>)
    ensures |bodies| == |cs| && forall k | 0 <= k < |cs| :: bodies[k] == Body(IdealRules(cs[k].body))
    decreases cs, 0
  {
    seq(|cs|, k requires 0 <= k < |cs| => Body(IdealRules(cs[k].body)))
  }

  /** Every loop that is skipped has nothing in it. */
  predicate Lossless(rs: seq<Rule>, scope: set<string>)
    decreases rs, 0
  {
    forall k | 0 <= k < |rs| :: LosslessRule(rs[k], scope)
  }

  predicate LosslessRule(r: Rule, scope: set<string>)
    decreases r, 0
  {
    match r
    case Simple(_, _) => true
    case RuleLoop(ind, _, rules) =>
      if Skipped(r, scope) then IdealRules(rules) == [] else Lossless(rules, scope + {ind})
    case RuleConditional(cs) => forall k | 0 <= k < |cs| :: Lossless(cs[k].body, scope)
    case Nest(rules) => Lossless(rules, scope)
    case Subcircuit(_, rules) => Lossless(rules, scope)
  }

  /** Exactly when the rules end up in the tree as they are written: none of them is in error,
      and every loop that is skipped is empty.  Rules that are cut short by an
      error never do. */
  lemma {:induction false} RulesBuiltExactly(rs: seq<Rule>, scope: set<string>)
    ensures |BuildRules(rs, scope).trees| <= |IdealRules(rs)|
    ensures BuildRules(rs, scope).threw ==> !GoodRules(rs)
    ensures BuildRules(rs, scope).trees == IdealRules(rs) <==> GoodRules(rs) && Lossless(rs, scope)
    decreases rs, 0
  {
    if rs != [] {
      var first, rest := BuildRule(rs[0], scope), BuildRules(rs[1..], scope);
      RuleBuiltExactly(rs[0], scope);
      RulesBuiltExactly(rs[1..], scope);
      RulesSplit(rs, scope);
      if first.threw {
        ConcatEqual(first.trees, IdealRule(rs[0]), [], IdealRules(rs[1..]));
      } else {
        ConcatEqual(first.trees, IdealRule(rs[0]), rest.trees, IdealRules(rs[1..]));
      }
    }
  }

  lemma RulesSplit(rs: seq<Rule>, scope: set<string>)
    requires rs != []
    ensures GoodRules(rs) <==> GoodRule(rs[0]) && GoodRules(rs[1..])
    ensures Lossless(rs, scope) <==> LosslessRule(rs[0], scope) && Lossless(rs[1..], scope)
  {
    assert rs == [rs[0]] + rs[1..];
  }

  /** What is in error would have left something in the tree. */
  lemma {:induction false} BadNotEmpty(rs: seq<Rule>)
    ensures !GoodRules(rs) ==> IdealRules(rs) != []
    decreases rs, 0
  {
    if rs != [] {
      RulesSplit(rs, {});
      BadRuleNotEmpty(rs[0]);
      BadNotEmpty(rs[1..]);
    }
  }

  lemma {:induction false} BadRuleNotEmpty(r: Rule)
    ensures !GoodRule(r) ==> IdealRule(r) != []
    decreases r, 0
  {
    match r
    case Simple(_, _) =>
    case RuleLoop(_, _, rules) => BadNotEmpty(rules);
    case RuleConditional(cs) =>
      forall k | 0 <= k < |cs|
        ensures !GoodRules(cs[k].body) ==> IdealBodies(cs)[k].trees != []
      {
        BadNotEmpty(cs[k].body);
      }
    case Nest(rules) => BadNotEmpty(rules);
    case Subcircuit(_, rules) => BadNotEmpty(rules);
  }

  lemma ConcatEqual<T>(a: seq<T>, i: seq<T>, b: seq<T>, j: seq<T>)
    requires |a| <= |i| && |b| <= |j|
    ensures a + b == i + j <==> a == i && b == j
  {
    if a + b == i + j {
      assert |a + b| == |i + j|;
      assert a == (a + b)[..|a|] && i == (i + j)[..|a|];
      assert b == (a + b)[|a|..] && j == (i + j)[|a|..];
    }
  }

  lemma {:induction false} RuleBuiltExactly(r: Rule, scope: set<string>)
    ensures |BuildRule(r, scope).trees| <= |IdealRule(r)|
    ensures BuildRule(r, scope).threw ==> !GoodRule(r)
    ensures BuildRule(r, scope).trees == IdealRule(r) <==> GoodRule(r) && LosslessRule(r, scope)
    decreases r, 0
  {
    match r
    case Simple(_, _) =>
    case RuleLoop(ind, _, rules) =>
      RulesBuiltExactly(rules, scope + {ind});
      BadNotEmpty(rules);
    case RuleConditional(cs) => ConditionalBuiltExactly(cs, scope);
    case Nest(rules) => RulesBuiltExactly(rules, scope);
    case Subcircuit(_, rules) =>
      RulesBuiltExactly(rules, scope);
      BadNotEmpty(rules);
  }

  lemma {:induction false} ConditionalBuiltExactly(cs: seq<Clause<Rule>>, scope: set<string>)
    ensures var r := RuleConditional(cs);
      && |BuildRule(r, scope).trees| <= |IdealRule(r)|
      && (BuildRule(r, scope).trees == IdealRule(r) <==> GoodRule(r) && LosslessRule(r, scope))
    decreases cs, 0
  {
    var bodies, ideal := RuleBodies(cs, scope), IdealBodies(cs);
    forall k | 0 <= k < |cs|
      ensures |bodies[k].trees| <= |ideal[k].trees|
      ensures bodies[k] == ideal[k] <==> GoodRules(cs[k].body) && Lossless(cs[k].body, scope)
    {
      RulesBuiltExactly(cs[k].body, scope);
    }
    assert bodies == ideal <==> forall k | 0 <= k < |cs| :: GoodRules(cs[k].body) && Lossless(cs[k].body, scope);
    assert AllEmpty(ideal) ==> AllEmpty(bodies) && bodies == ideal;
  }

  // ---- unrolling the trees ----

  lemma {:induction false} UnrollConcat(a: seq<Tree>, b: seq<Tree>, w: World, env: Env)
    ensures Unroll(a + b, w, env) == Unroll(a, w, env) + Unroll(b, w, env)
  {
    if a == [] {
      assert a + b == b;
    } else {
      assert (a + b)[1..] == a[1..] + b;
      UnrollConcat(a[1..], b, w, env);
    }
  }

  lemma UnrollSingle(t: Tree, w: World, env: Env)
    ensures Unroll([t], w, env) == UnrollOne(t, w, env)
  {
    assert [t][1..] == [];
  }

  /** Unrolling the tree of good rules gives the rules' meaning, in every world. */
  lemma {:induction false} IdealRulesUnroll(rs: seq<Rule>, w: World, env: Env)
    ensures Unroll(IdealRules(rs), w, env) == RulesMean(rs, w, env)
    decreases rs, 0
  {
    if rs != [] {
      IdealRuleUnrolls(rs[0], w, env);
      IdealRulesUnroll(rs[1..], w, env);
      UnrollConcat(IdealRule(rs[0]), IdealRules(rs[1..]), w, env);
    }
  }

  lemma {:induction false} IdealRuleUnrolls(r: Rule, w: World, env: Env)
    ensures Unroll(IdealRule(r), w, env) == RuleMeans(r, w, env)
    decreases r, 0
  {
    match r
    case Simple(text, _) => UnrollSingle(Leaf(text), w, env);
    case RuleLoop(ind, bounds, rules) =>
      var t := LoopTree(ind, bounds, IdealRules(rules));
      IdealLoopUnrolls(r, FirstIndex(bounds, w.bound, env), LastIndex(bounds, w.bound, env), w, env);
      UnrollSingle(t, w, env);
    case RuleConditional(cs) =>
      UnrollSingle(CondTree(Guards(cs), IdealBodies(cs)), w, env);
      var k := FirstTrue(Guards(cs), w, env);
      if k < |cs| {
        IdealRulesUnroll(cs[k].body, w, env);
      }
    case Nest(rules) => IdealRulesUnroll(rules, w, env);
    case Subcircuit(name, rules) =>
      IdealRulesUnroll(rules, w, env);
      UnrollSingle(SubTree(name, IdealRules(rules)), w, env);
  }

  lemma {:induction false} IdealLoopUnrolls(r: Rule, p: int, max: int, w: World, env: Env)
    requires r.RuleLoop?
    ensures var t := LoopTree(r.ind, r.bounds, IdealRules(r.rules));
      UnrollFrom(t, p, max, w, env) == RulesFrom(r, p, max, w, env)
    ensures IdealRules(r.rules) == [] ==> RulesFrom(r, p, max, w, env) == []
    decreases r.rules, 1, max - p + 1
  {
    if p <= max {
      IdealRulesUnroll(r.rules, w, env[r.ind := p]);
      IdealLoopUnrolls(r, p + 1, max, w, env);
    }
  }

  /** No rule in the items is in error, and no loop around rules that is skipped has anything
      in it. */
  predicate Kept(items: seq<Item>, scope: set<string>)
    decreases items, 0
  {
    forall k | 0 <= k < |items| :: KeptItem(items[k], scope)
  }

  predicate KeptItem(i: Item, scope: set<string>)
    decreases i, 0
  {
    match i
    case PrsBody(rules) => GoodRules(rules) && Lossless(rules, scope)
    case Loop(ind, _, body) => Kept(body, scope + {ind})
    case Conditional(cs) => forall k | 0 <= k < |cs| :: Kept(cs[k].body, scope)
    case _ => true
  }

  /** The tree of everything that is written for rules in the items. */
  function IdealItems(items: seq<Item>): seq<Tree>
    decreases items, 0
  {
    if items == [] then [] else IdealItem(items[0]) + IdealItems(items[1..])
  }

  function IdealItem(i: Item): seq<Tree>
    decreases i, 0
  {
    match i
    case PrsBody(rules) => if IdealRules(rules) == [] then [] else [SetTree(IdealRules(rules))]
    case Loop(ind, bounds, body) =>
      if IdealItems(body) == [] then [] else [LoopTree(ind, bounds, IdealItems(body))]
    case Conditional(cs) =>
      var bodies := IdealItemBodies(cs);
      if AllEmpty(bodies) then [] else [CondTree(Guards(cs), bodies)]
    case _ => []
  }

  function IdealItemBodies(cs: seq<Clause<Item>>): (bodies: seq<Body>)
    ensures |bodies| == |cs| && forall k | 0 <= k < |cs| :: bodies[k] == Body(IdealItems(cs[k].body))
    decreases cs, 0
  {
    seq(|cs|, k requires 0 <= k < |cs| => Body(IdealItems(cs[k].body)))
  }

  /** The tree of everything that is written unrolls to the projection on rules, always. */
  lemma {:induction false} IdealItemsUnroll(items: seq<Item>, w: World, env: Env)
    ensures Unroll(IdealItems(items), w, env) == ItemsMean(Rules, items, w, env)
    decreases items, 0
  {
    if items != [] {
      IdealItemUnrolls(items[0], w, env);
      IdealItemsUnroll(items[1..], w, env);
      UnrollConcat(IdealItem(items[0]), IdealItems(items[1..]), w, env);
    }
  }

  lemma {:induction false} IdealItemUnrolls(i: Item, w: World, env: Env)
    ensures Unroll(IdealItem(i), w, env) == ItemMeans(Rules, i, w, env)
    decreases i, 0
  {
    match i
    case Instance(_, _) =>
    case SpecBody(_) =>
    case PrsBody(rules) =>
      IdealRulesUnroll(rules, w, env);
      UnrollSingle(SetTree(IdealRules(rules)), w, env);
    case Loop(ind, bounds, body) =>
      IdealItemLoopUnrolls(i, FirstIndex(bounds, w.bound, env), LastIndex(bounds, w.bound, env), w, env);
      UnrollSingle(LoopTree(ind, bounds, IdealItems(body)), w, env);
    case Conditional(cs) =>
      UnrollSingle(CondTree(Guards(cs), IdealItemBodies(cs)), w, env);
      var k := FirstTrue(Guards(cs), w, env);
      if k < |cs| {
        IdealItemsUnroll(cs[k].body, w, env);
      }
  }

  lemma {:induction false} IdealItemLoopUnrolls(i: Item, p: int, max: int, w: World, env: Env)
    requires i.Loop?
    ensures var t := LoopTree(i.ind, i.bounds, IdealItems(i.body));
      UnrollFrom(t, p, max, w, env) == ItemsFrom(Rules, i, p, max, w, env)
    ensures IdealItems(i.body) == [] ==> ItemsFrom(Rules, i, p, max, w, env) == []
    decreases i.body, 1, max - p + 1
  {
    if p <= max {
      IdealItemsUnroll(i.body, w, env[i.ind := p]);
      IdealItemLoopUnrolls(i, p + 1, max, w, env);
    }
  }

  /** Exactly when the whole tree of rules is as written, accepted source or not: no rule is in
      error and no loop with anything in it is skipped. */
  lemma {:induction false} RulesTreeExactly(items: seq<Item>, scope: set<string>)
    ensures |Build(Rules, items, scope)| <= |IdealItems(items)|
    ensures Build(Rules, items, scope) == IdealItems(items) <==> Kept(items, scope)
    decreases items, 0
  {
    if items != [] {
      RulesTreeOfItem(items[0], scope);
      RulesTreeExactly(items[1..], scope);
      ConcatEqual(BuildItem(Rules, items[0], scope), IdealItem(items[0]),
                  Build(Rules, items[1..], scope), IdealItems(items[1..]));
      assert Kept(items, scope) <==> KeptItem(items[0], scope) && Kept(items[1..], scope) by {
        assert items == [items[0]] + items[1..];
      }
    }
  }

  lemma {:induction false} RulesTreeOfItem(i: Item, scope: set<string>)
    ensures |BuildItem(Rules, i, scope)| <= |IdealItem(i)|
    ensures BuildItem(Rules, i, scope) == IdealItem(i) <==> KeptItem(i, scope)
    decreases i, 0
  {
    match i
    case PrsBody(rules) => RulesBuiltExactly(rules, scope);
    case Loop(ind, _, body) => RulesTreeExactly(body, scope + {ind});
    case Conditional(cs) =>
      var bodies, ideal := Bodies(Rules, cs, scope), IdealItemBodies(cs);
      forall k | 0 <= k < |cs|
        ensures |bodies[k].trees| <= |ideal[k].trees|
        ensures bodies[k] == ideal[k] <==> Kept(cs[k].body, scope)
      {
        RulesTreeExactly(cs[k].body, scope);
      }
      assert bodies == ideal <==> forall k | 0 <= k < |cs| :: Kept(cs[k].body, scope);
      assert AllEmpty(ideal) ==> AllEmpty(bodies) && bodies == ideal;
    case _ =>
  }
}
