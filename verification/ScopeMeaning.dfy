/** What the three trees unroll to, and their shape. */
module ScopeMeaning {
  import opened LoopBounds
  import opened ScopeTrees

  // ---- which rules are lost in which world ----

  /** Nothing that comes up when the rules are unrolled in this world is lost: of every
      conditional only the clause chosen matters, and of every loop only the iterations run. */
  predicate RulesKeptIn(rs: seq<Rule>, scope: set<string>, w: World, env: Env)
    decreases rs, 0
  {
    rs != [] ==>
      && RuleKeptIn(rs[0], scope, w, env)
      && (if EscapesRule(rs[0], scope) then RulesMean(rs[1..], w, env) == [] else RulesKeptIn(rs[1..], scope, w, env))
  }

  predicate RuleKeptIn(r: Rule, scope: set<string>, w: World, env: Env)
    decreases r, 0
  {
    match r
    case Simple(_, good) => good
    case RuleLoop(ind, b, rules) =>
      if Skipped(r, scope) then RuleMeans(r, w, env) == []
      else
        forall p: int {:trigger env[ind := p]} |
          FirstIndex(b, w.bound, env) <= p <= LastIndex(b, w.bound, env) ::
          RulesKeptIn(rules, scope + {ind}, w, env[ind := p])
    case RuleConditional(cs) =>
      var k := FirstTrue(Guards(cs), w, env);
      k < |cs| ==> RulesKeptIn(cs[k].body, scope, w, env)
    case Nest(rules) => RulesKeptIn(rules, scope, w, env)
    case Subcircuit(_, rules) => RulesKeptIn(rules, scope, w, env)
  }

  predicate KeptIn(items: seq<Item>, scope: set<string>, w: World, env: Env)
    decreases items, 0
  {
    forall k | 0 <= k < |items| :: ItemKeptIn(items[k], scope, w, env)
  }

  predicate ItemKeptIn(i: Item, scope: set<string>, w: World, env: Env)
    decreases i, 0
  {
    match i
    case PrsBody(rules) => RulesKeptIn(rules, scope, w, env)
    case Loop(ind, b, body) =>
      forall p: int {:trigger env[ind := p]} |
        FirstIndex(b, w.bound, env) <= p <= LastIndex(b, w.bound, env) ::
        KeptIn(body, scope + {ind}, w, env[ind := p])
    case Conditional(cs) =>
      var k := FirstTrue(Guards(cs), w, env);
      k < |cs| ==> KeptIn(cs[k].body, scope, w, env)
    case _ => true
  }

  // ---- unrolling ----

  /** Exactly when unrolling the tree of rules, in error or not, gives what the source says in
      this world. */
  lemma {:induction false} RulesUnrollExactly(rs: seq<Rule>, scope: set<string>, w: World, env: Env)
    ensures var u, m := Unroll(BuildRules(rs, scope).trees, w, env), RulesMean(rs, w, env);
      |u| <= |m| && (u == m <==> RulesKeptIn(rs, scope, w, env))
    decreases rs, 0
  {
    if rs != [] {
      var first, rest := BuildRule(rs[0], scope), BuildRules(rs[1..], scope);
      RuleThrewExactly(rs[0], scope);
      RuleUnrollsExactly(rs[0], scope, w, env);
      RulesUnrollExactly(rs[1..], scope, w, env);
      UnrollConcat(first.trees, rest.trees, w, env);
      ConcatEqual(Unroll(first.trees, w, env), RuleMeans(rs[0], w, env),
                  if first.threw then [] else Unroll(rest.trees, w, env), RulesMean(rs[1..], w, env));
    }
  }

  lemma {:induction false} RuleUnrollsExactly(r: Rule, scope: set<string>, w: World, env: Env)
    ensures var u, m := Unroll(BuildRule(r, scope).trees, w, env), RuleMeans(r, w, env);
      |u| <= |m| && (u == m <==> RuleKeptIn(r, scope, w, env))
    decreases r, 0
  {
    match r
    case Simple(text, _) => UnrollSingle(Leaf(text), w, env);
    case RuleLoop(ind, b, rules) =>
      if !Skipped(r, scope) {
        RuleLoopUnrollsExactly(r, scope, FirstIndex(b, w.bound, env), LastIndex(b, w.bound, env), w, env);
        UnrollSingle(LoopTree(ind, b, BuildRules(rules, scope + {ind}).trees), w, env);
      }
    case RuleConditional(cs) =>
      UnrollSingle(CondTree(Guards(cs), RuleBodies(cs, scope)), w, env);
      var k := FirstTrue(Guards(cs), w, env);
      if k < |cs| {
        RulesUnrollExactly(cs[k].body, scope, w, env);
      }
    case Nest(rules) => RulesUnrollExactly(rules, scope, w, env);
    case Subcircuit(name, rules) =>
      RulesUnrollExactly(rules, scope, w, env);
      UnrollSingle(SubTree(name, BuildRules(rules, scope).trees), w, env);
  }

  lemma {:induction false} RuleLoopUnrollsExactly(r: Rule, scope: set<string>, p: int, max: int, w: World, env: Env)
    requires r.RuleLoop?
    ensures var body := BuildRules(r.rules, scope + {r.ind}).trees;
      var u, m := UnrollFrom(LoopTree(r.ind, r.bounds, body), p, max, w, env), RulesFrom(r, p, max, w, env);
      && |u| <= |m| && (body == [] ==> u == [])
      && (u == m <==> forall q: int {:trigger env[r.ind := q]} | p <= q <= max ::
                        RulesKeptIn(r.rules, scope + {r.ind}, w, env[r.ind := q]))
    decreases r.rules, 1, max - p + 1
  {
    if p <= max {
      var body := BuildRules(r.rules, scope + {r.ind}).trees;
      var t := LoopTree(r.ind, r.bounds, body);
      RulesUnrollExactly(r.rules, scope + {r.ind}, w, env[r.ind := p]);
      RuleLoopUnrollsExactly(r, scope, p + 1, max, w, env);
      ConcatEqual(Unroll(body, w, env[r.ind := p]), RulesMean(r.rules, w, env[r.ind := p]),
                  UnrollFrom(t, p + 1, max, w, env), RulesFrom(r, p + 1, max, w, env));
    }
  }

  /** Exactly when unrolling the tree of a language gives that language's projection of the
      unrolled source, although empty loops and conditionals have been removed: for instances
      and directives always; for rules in the worlds in which none that comes up was lost. */
  lemma {:induction false} UnrollsToProjection(l: Language, items: seq<Item>, scope: set<string>, w: World, env: Env)
    ensures var u, m := Unroll(Build(l, items, scope), w, env), ItemsMean(l, items, w, env);
      |u| <= |m| && (u == m <==> (l.Rules? ==> KeptIn(items, scope, w, env)))
    decreases items, 0
  {
    if items != [] {
      ItemUnrolls(l, items[0], scope, w, env);
      UnrollsToProjection(l, items[1..], scope, w, env);
      UnrollConcat(BuildItem(l, items[0], scope), Build(l, items[1..], scope), w, env);
      ConcatEqual(Unroll(BuildItem(l, items[0], scope), w, env), ItemMeans(l, items[0], w, env),
                  Unroll(Build(l, items[1..], scope), w, env), ItemsMean(l, items[1..], w, env));
      assert KeptIn(items, scope, w, env) <==> ItemKeptIn(items[0], scope, w, env) && KeptIn(items[1..], scope, w, env) by {
        assert items == [items[0]] + items[1..];
      }
    }
  }

  lemma {:induction false} ItemUnrolls(l: Language, i: Item, scope: set<string>, w: World, env: Env)
    ensures var u, m := Unroll(BuildItem(l, i, scope), w, env), ItemMeans(l, i, w, env);
      |u| <= |m| && (u == m <==> (l.Rules? ==> ItemKeptIn(i, scope, w, env)))
    decreases i, 0
  {
    match i
    case Instance(text, _) => UnrollSingle(Leaf(text), w, env);
    case PrsBody(rules) =>
      RulesUnrollExactly(rules, scope, w, env);
      UnrollSingle(SetTree(BuildRules(rules, scope).trees), w, env);
    case SpecBody(ds) => DirectivesUnroll(ds, w, env);
    case Loop(ind, b, body) =>
      LoopUnrolls(l, i, scope, FirstIndex(b, w.bound, env), LastIndex(b, w.bound, env), w, env);
      UnrollSingle(LoopTree(ind, b, Build(l, body, scope + {ind})), w, env);
    case Conditional(cs) =>
      UnrollSingle(CondTree(Guards(cs), Bodies(l, cs, scope)), w, env);
      var k := FirstTrue(Guards(cs), w, env);
      if k < |cs| {
        UnrollsToProjection(l, cs[k].body, scope, w, env);
      }
  }

  lemma {:induction false} DirectivesUnroll(ds: seq<Directive>, w: World, env: Env)
    ensures Unroll(BuildDirectives(ds), w, env) == DirectivesMean(ds, env)
  {
    if ds != [] {
      DirectivesUnroll(ds[1..], w, env);
      assert BuildDirectives(ds)[1..] == BuildDirectives(ds[1..]);
      assert DirectivesMean(ds, env) == [Event(ds[0].text, env)] + DirectivesMean(ds[1..], env);
    }
  }

  lemma {:induction false} LoopUnrolls(l: Language, i: Item, scope: set<string>, p: int, max: int, w: World, env: Env)
    requires i.Loop?
    ensures var body := Build(l, i.body, scope + {i.ind});
      var u, m := UnrollFrom(LoopTree(i.ind, i.bounds, body), p, max, w, env), ItemsFrom(l, i, p, max, w, env);
      && |u| <= |m| && (body == [] ==> u == [])
      && (u == m <==> (l.Rules? ==> forall q: int {:trigger env[i.ind := q]} | p <= q <= max ::
                                      KeptIn(i.body, scope + {i.ind}, w, env[i.ind := q])))
    decreases i.body, 1, max - p + 1
  {
    if p <= max {
      var body := Build(l, i.body, scope + {i.ind});
      var t := LoopTree(i.ind, i.bounds, body);
      UnrollsToProjection(l, i.body, scope + {i.ind}, w, env[i.ind := p]);
      LoopUnrolls(l, i, scope, p + 1, max, w, env);
      ConcatEqual(Unroll(body, w, env[i.ind := p]), ItemsMean(l, i.body, w, env[i.ind := p]),
                  UnrollFrom(t, p + 1, max, w, env), ItemsFrom(l, i, p + 1, max, w, env));
    }
  }

  /** A tree of rules that is as written is right in every world. */
  lemma KeptEverywhere(items: seq<Item>, scope: set<string>, w: World, env: Env)
    requires Kept(items, scope)
    ensures KeptIn(items, scope, w, env)
  {
    RulesTreeExactly(items, scope);
    IdealItemsUnroll(items, w, env);
    UnrollsToProjection(Rules, items, scope, w, env);
  }

  // ---- the shape of the trees ----

  /** Nothing hollow: no loop, set or conditional without a leaf somewhere below, and a body
      for every guard. */
  predicate Compact(ts: seq<Tree>)
    decreases ts, 0
  {
    forall k | 0 <= k < |ts| :: CompactTree(ts[k])
  }

  predicate CompactTree(t: Tree)
    decreases t, 0
  {
    match t
    case Leaf(_) => true
    case LoopTree(_, _, body) => body != [] && Compact(body)
    case CondTree(guards, clauses) =>
      |guards| == |clauses| && !AllEmpty(clauses) && forall k | 0 <= k < |clauses| :: Compact(clauses[k].trees)
    case SetTree(body) => body != [] && Compact(body)
    case SubTree(_, body) => body != [] && Compact(body)
  }

  predicate HasLeaf(ts: seq<Tree>)
    decreases ts, 0
  {
    exists k | 0 <= k < |ts| :: TreeHasLeaf(ts[k])
  }

  predicate TreeHasLeaf(t: Tree)
    decreases t, 0
  {
    match t
    case Leaf(_) => true
    case LoopTree(_, _, body) => HasLeaf(body)
    case CondTree(_, clauses) => exists k | 0 <= k < |clauses| :: HasLeaf(clauses[k].trees)
    case SetTree(body) => HasLeaf(body)
    case SubTree(_, body) => HasLeaf(body)
  }

  /** So looking at a list alone tells whether there is anything anywhere below. */
  lemma {:induction false} ShallowEmptyIsDeepEmpty(ts: seq<Tree>)
    requires Compact(ts)
    ensures ts == [] <==> !HasLeaf(ts)
    decreases ts, 0
  {
    if ts != [] {
      TreeNotHollow(ts[0]);
      assert TreeHasLeaf(ts[0]);
    }
  }

  lemma {:induction false} TreeNotHollow(t: Tree)
    requires CompactTree(t)
    ensures TreeHasLeaf(t)
    decreases t, 0
  {
    match t
    case Leaf(_) =>
    case LoopTree(_, _, body) => ShallowEmptyIsDeepEmpty(body);
    case CondTree(_, clauses) =>
      var k :| 0 <= k < |clauses| && clauses[k].trees != [];
      ShallowEmptyIsDeepEmpty(clauses[k].trees);
    case SetTree(body) => ShallowEmptyIsDeepEmpty(body);
    case SubTree(_, body) => ShallowEmptyIsDeepEmpty(body);
  }

  /** Something is built for the rules. */
  predicate Fills(rs: seq<Rule>, scope: set<string>)
    decreases rs, 0
  {
    rs != [] && (FillsRule(rs[0], scope) || (!EscapesRule(rs[0], scope) && Fills(rs[1..], scope)))
  }

  predicate FillsRule(r: Rule, scope: set<string>)
    decreases r, 0
  {
    match r
    case Simple(_, good) => good
    case RuleLoop(ind, _, rules) =>
      !Skipped(r, scope) && (Fills(rules, scope + {ind}) || Escapes(rules, scope + {ind}))
    case RuleConditional(cs) => exists k | 0 <= k < |cs| :: Fills(cs[k].body, scope)
    case Nest(rules) => Fills(rules, scope)
    case Subcircuit(_, rules) => Fills(rules, scope) || Escapes(rules, scope)
  }

  lemma {:induction false} FillsExactly(rs: seq<Rule>, scope: set<string>)
    ensures BuildRules(rs, scope).trees != [] <==> Fills(rs, scope)
    decreases rs, 0
  {
    if rs != [] {
      RuleThrewExactly(rs[0], scope);
      FillsRuleExactly(rs[0], scope);
      FillsExactly(rs[1..], scope);
    }
  }

  lemma {:induction false} FillsRuleExactly(r: Rule, scope: set<string>)
    ensures BuildRule(r, scope).trees != [] <==> FillsRule(r, scope)
    decreases r, 0
  {
    match r
    case Simple(_, _) =>
    case RuleLoop(ind, _, rules) =>
      ThrewExactly(rules, scope + {ind});
      FillsExactly(rules, scope + {ind});
    case RuleConditional(cs) =>
      forall k | 0 <= k < |cs|
        ensures RuleBodies(cs, scope)[k].trees != [] <==> Fills(cs[k].body, scope)
      {
        FillsExactly(cs[k].body, scope);
      }
    case Nest(rules) => FillsExactly(rules, scope);
    case Subcircuit(_, rules) =>
      ThrewExactly(rules, scope);
      FillsExactly(rules, scope);
  }

  /** No loop or subcircuit in the rules begins with an error, which would leave it behind
      empty.  What comes after an error that is passed on does not matter. */
  predicate NoneEmptied(rs: seq<Rule>, scope: set<string>)
    decreases rs, 0
  {
    rs != [] ==>
      NoneEmptiedRule(rs[0], scope) && (EscapesRule(rs[0], scope) || NoneEmptied(rs[1..], scope))
  }

  predicate NoneEmptiedRule(r: Rule, scope: set<string>)
    decreases r, 0
  {
    match r
    case Simple(_, _) => true
    case RuleLoop(ind, _, rules) =>
      !Skipped(r, scope) ==>
        NoneEmptied(rules, scope + {ind}) && (Escapes(rules, scope + {ind}) ==> Fills(rules, scope + {ind}))
    case RuleConditional(cs) => forall k | 0 <= k < |cs| :: NoneEmptied(cs[k].body, scope)
    case Nest(rules) => NoneEmptied(rules, scope)
    case Subcircuit(_, rules) => NoneEmptied(rules, scope) && (Escapes(rules, scope) ==> Fills(rules, scope))
  }

  lemma CompactConcat(a: seq<Tree>, b: seq<Tree>)
    ensures Compact(a + b) <==> Compact(a) && Compact(b)
  {
    assert forall k | 0 <= k < |a| :: (a + b)[k] == a[k];
    assert forall k | 0 <= k < |b| :: (a + b)[|a| + k] == b[k];
  }

  lemma CompactSingle(t: Tree)
    ensures Compact([t]) <==> CompactTree(t)
  {
    assert [t][0] == t;
  }

  /** Exactly when the tree of rules has nothing hollow in it. */
  lemma {:induction false} RulesCompact(rs: seq<Rule>, scope: set<string>)
    ensures Compact(BuildRules(rs, scope).trees) <==> NoneEmptied(rs, scope)
    decreases rs, 0
  {
    if rs != [] {
      RuleThrewExactly(rs[0], scope);
      RuleCompact(rs[0], scope);
      RulesCompact(rs[1..], scope);
      CompactConcat(BuildRule(rs[0], scope).trees, BuildRules(rs[1..], scope).trees);
    }
  }

  lemma {:induction false} RuleCompact(r: Rule, scope: set<string>)
    ensures Compact(BuildRule(r, scope).trees) <==> NoneEmptiedRule(r, scope)
    decreases r, 0
  {
    match r
    case Simple(_, _) =>
    case RuleLoop(ind, bounds, rules) =>
      ThrewExactly(rules, scope + {ind});
      FillsExactly(rules, scope + {ind});
      RulesCompact(rules, scope + {ind});
      CompactSingle(LoopTree(ind, bounds, BuildRules(rules, scope + {ind}).trees));
    case RuleConditional(cs) =>
      forall k | 0 <= k < |cs|
        ensures Compact(RuleBodies(cs, scope)[k].trees) <==> NoneEmptied(cs[k].body, scope)
      {
        RulesCompact(cs[k].body, scope);
      }
      CompactSingle(CondTree(Guards(cs), RuleBodies(cs, scope)));
    case Nest(rules) => RulesCompact(rules, scope);
    case Subcircuit(name, rules) =>
      ThrewExactly(rules, scope);
      FillsExactly(rules, scope);
      RulesCompact(rules, scope);
      CompactSingle(SubTree(name, BuildRules(rules, scope).trees));
  }

  predicate NoneEmptiedItems(items: seq<Item>, scope: set<string>)
    decreases items, 0
  {
    forall k | 0 <= k < |items| :: NoneEmptiedItem(items[k], scope)
  }

  predicate NoneEmptiedItem(i: Item, scope: set<string>)
    decreases i, 0
  {
    match i
    case PrsBody(rules) => NoneEmptied(rules, scope)
    case Loop(ind, _, body) => NoneEmptiedItems(body, scope + {ind})
    case Conditional(cs) => forall k | 0 <= k < |cs| :: NoneEmptiedItems(cs[k].body, scope)
    case _ => true
  }

  /** Exactly when no empty loop or conditional survives in a tree: for instances and
      directives always, for rules if no error emptied one. */
  lemma {:induction false} BuildCompact(l: Language, items: seq<Item>, scope: set<string>)
    ensures Compact(Build(l, items, scope)) <==> (l.Rules? ==> NoneEmptiedItems(items, scope))
    decreases items, 0
  {
    if items != [] {
      BuildItemCompact(l, items[0], scope);
      BuildCompact(l, items[1..], scope);
      CompactConcat(BuildItem(l, items[0], scope), Build(l, items[1..], scope));
      assert NoneEmptiedItems(items, scope) <==> NoneEmptiedItem(items[0], scope) && NoneEmptiedItems(items[1..], scope) by {
        assert items == [items[0]] + items[1..];
      }
    }
  }

  lemma {:induction false} BuildItemCompact(l: Language, i: Item, scope: set<string>)
    ensures Compact(BuildItem(l, i, scope)) <==> (l.Rules? ==> NoneEmptiedItem(i, scope))
    decreases i, 0
  {
    match i
    case Instance(_, _) =>
    case PrsBody(rules) =>
      RulesCompact(rules, scope);
      CompactSingle(SetTree(BuildRules(rules, scope).trees));
    case SpecBody(_) =>
    case Loop(ind, bounds, body) =>
      BuildCompact(l, body, scope + {ind});
      CompactSingle(LoopTree(ind, bounds, Build(l, body, scope + {ind})));
    case Conditional(cs) =>
      forall k | 0 <= k < |cs|
        ensures Compact(Bodies(l, cs, scope)[k].trees) <==> (l.Rules? ==> NoneEmptiedItems(cs[k].body, scope))
      {
        BuildCompact(l, cs[k].body, scope);
      }
      CompactSingle(CondTree(Guards(cs), Bodies(l, cs, scope)));
  }

  /** Clauses stay aligned: where a conditional survives in a tree, its guards are those of
      the source, in order, clauses empty in that language included.  So whichever trees it
      survives in, the clause chosen is the one chosen in the source. */
  lemma ClausesAligned(l: Language, cs: seq<Clause<Item>>, scope: set<string>, w: World, env: Env)
    ensures var t := BuildItem(l, Conditional(cs), scope);
      && |t| <= 1
      && (t == [] <==> forall k | 0 <= k < |cs| :: Build(l, cs[k].body, scope) == [])
      && (t != [] ==>
            && t[0].CondTree? && t[0].guards == Guards(cs) && |t[0].clauses| == |cs|
            && FirstTrue(t[0].guards, w, env) == FirstTrue(Guards(cs), w, env)
            && forall k | 0 <= k < |cs| :: t[0].clauses[k].trees == Build(l, cs[k].body, scope))
  {
    var bodies := Bodies(l, cs, scope);
    assert AllEmpty(bodies) <==> forall k | 0 <= k < |cs| :: Build(l, cs[k].body, scope) == [];
  }

  // ---- rules that are lost ----

  function Anywhere(): World {
    World((g, env) => true, (b, env) => 0)
  }

  /** A loop over a name already in scope is skipped with the rule in it, and accepted. */
  lemma SkippedLoopExample()
    ensures var items := [Loop("i", Fixed(0, 0), [PrsBody([RuleLoop("i", Fixed(0, 0), [Simple("a", true)])])])];
      && Accepted(items, {}) && !Kept(items, {}) && Build(Rules, items, {}) == []
      && Unroll(Build(Rules, items, {}), Anywhere(), map[]) == []
      && ItemsMean(Rules, items, Anywhere(), map[]) == [Event("a", map["i" := 0])]
  {
    var rules := [Simple("a", true)];
    var loop := RuleLoop("i", Fixed(0, 0), rules);
    var prs := PrsBody([loop]);
    var body := [prs];
    var item := Loop("i", Fixed(0, 0), body);
    var w, env: Env := Anywhere(), map["i" := 0];
    assert BuildRules([loop], {} + {"i"}) == Built([], false);
    assert Build(Rules, body, {} + {"i"}) == [];
    assert AcceptedItem(prs, {} + {"i"}) by {
      ThrewExactly([loop], {} + {"i"});
    }
    assert BuildItem(Rules, item, {}) == [];
    assert RulesMean(rules, w, env["i" := 0]) == [Event("a", env)] by {
      assert env["i" := 0] == env;
    }
    assert RulesFrom(loop, 0, 0, w, env) == [Event("a", env)] + RulesFrom(loop, 1, 0, w, env);
    assert RulesMean([loop], w, env) == [Event("a", env)] + RulesMean([loop][1..], w, env);
    assert ItemsMean(Rules, body, w, env) == [Event("a", env)] + ItemsMean(Rules, body[1..], w, env);
    assert map[]["i" := 0] == env;
    assert ItemsFrom(Rules, item, 0, 0, w, map[]) == [Event("a", env)] + ItemsFrom(Rules, item, 1, 0, w, map[]);
    if Kept([item], {}) {
      KeptEverywhere([item], {}, w, map[]);
      UnrollsToProjection(Rules, [item], {}, w, map[]);
    }
  }

  /** An error in a clause of a conditional among rules goes unreported to the outside: the
      rest of the clause is gone, and a loop that was open stays behind empty. */
  lemma ErrorSwallowed()
    ensures var rs := [RuleConditional([Clause(If("g"),
                       [Simple("a", true), RuleLoop("i", Fixed(0, 1), [Simple("bad", false)]), Simple("b", true)])])];
      && !BuildRules(rs, {}).threw
      && BuildRules(rs, {}).trees
         == [CondTree([If("g")], [Body([Leaf("a"), LoopTree("i", Fixed(0, 1), [])])])]
      && Unroll(BuildRules(rs, {}).trees, Anywhere(), map[]) != RulesMean(rs, Anywhere(), map[])
  {
    var inner := [Simple("bad", false)];
    var loop := RuleLoop("i", Fixed(0, 1), inner);
    var body := [Simple("a", true), loop, Simple("b", true)];
    assert BuildRules(inner, {} + {"i"}) == Built([], true);
    assert BuildRule(loop, {}) == Built([LoopTree("i", Fixed(0, 1), [])], true);
    assert BuildRules(body[1..], {}) == Built([LoopTree("i", Fixed(0, 1), [])], true);
    assert BuildRules(body, {}) == Built([Leaf("a"), LoopTree("i", Fixed(0, 1), [])], true);
    var cs := [Clause(If("g"), body)];
    var cond := RuleConditional(cs);
    assert RuleBodies(cs, {}) == [Body([Leaf("a"), LoopTree("i", Fixed(0, 1), [])])];
    assert Guards(cs) == [If("g")];
    assert !AllEmpty(RuleBodies(cs, {})) by {
      assert RuleBodies(cs, {})[0].trees != [];
    }
    assert [cond][1..] == [];
    RulesUnrollExactly([cond], {}, Anywhere(), map[]);
    assert FirstTrue(Guards(cs), Anywhere(), map[]) == 0;
    assert RulesMean(body[1..], Anywhere(), map[]) != [] by {
      assert body[1..][1..] == [Simple("b", true)];
      assert RulesMean([Simple("b", true)], Anywhere(), map[]) != [];
    }
  }

  /** A loop that is skipped because its bounds are out of order loses nothing: it would not
      have run. */
  lemma OutOfOrderMeansNothing(r: Rule, scope: set<string>, w: World, env: Env)
    requires r.RuleLoop? && OutOfOrder(r.bounds)
    ensures BuildRule(r, scope) == Built([], false) && RuleMeans(r, w, env) == [] && RuleKeptIn(r, scope, w, env)
  {
  }
}
