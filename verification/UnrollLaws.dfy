/** What unrolling does to loops, conditionals and lists, with the iterations and the guards
    written out: the same for the trees that are built and for the source. */
module UnrollLaws {
  import opened LoopBounds
  import opened ScopeTrees

  /** The pieces, one after the other. */
  function Flatten(pieces: seq<seq<Event>>): seq<Event> {
    if pieces == [] then [] else pieces[0] + Flatten(pieces[1..])
  }

  lemma {:induction false} FlattenOnes(pieces: seq<seq<Event>>, es: seq<Event>)
    requires |pieces| == |es| && forall k | 0 <= k < |pieces| :: pieces[k] == [es[k]]
    ensures Flatten(pieces) == es
  {
    if pieces != [] {
      FlattenOnes(pieces[1..], es[1..]);
      assert es == [es[0]] + es[1..];
    }
  }

  lemma FlattenFirst(piece: seq<Event>, pieces: seq<seq<Event>>)
    ensures Flatten([piece] + pieces) == piece + Flatten(pieces)
  {
    assert ([piece] + pieces)[1..] == pieces;
  }

  /** Both bounds are included. */
  function Steps(lo: int, hi: int): nat {
    if lo <= hi then hi - lo + 1 else 0
  }

  // ---- loops ----

  /** The pieces that a loop contributes, from lo on. */
  function Iterated(l: Language, ind: string, body: seq<Item>, lo: int, n: nat, w: World, env: Env): (pieces: seq<seq<Event>>)
    ensures |pieces| == n && forall k | 0 <= k < n :: pieces[k] == ItemsMean(l, body, w, env[ind := lo + k])
  {
    seq(n, k requires 0 <= k < n => ItemsMean(l, body, w, env[ind := lo + k]))
  }

  lemma {:induction false} ItemsIterate(l: Language, i: Item, p: int, max: int, w: World, env: Env)
    requires i.Loop?
    ensures ItemsFrom(l, i, p, max, w, env) == Flatten(Iterated(l, i.ind, i.body, p, Steps(p, max), w, env))
    decreases max - p + 1
  {
    if p <= max {
      var rest := Iterated(l, i.ind, i.body, p + 1, Steps(p + 1, max), w, env);
      ItemsIterate(l, i, p + 1, max, w, env);
      assert Iterated(l, i.ind, i.body, p, Steps(p, max), w, env) == [ItemsMean(l, i.body, w, env[i.ind := p])] + rest;
      FlattenFirst(ItemsMean(l, i.body, w, env[i.ind := p]), rest);
    }
  }

  /** A loop around items means its body for lo, lo + 1, ..., hi in turn. */
  lemma LoopMeans(l: Language, ind: string, b: Bounds, body: seq<Item>, lo: int, hi: int, w: World, env: Env)
    requires Ranges(b, w.bound, env, lo, hi)
    ensures ItemMeans(l, Loop(ind, b, body), w, env) == Flatten(Iterated(l, ind, body, lo, Steps(lo, hi), w, env))
  {
    ItemsIterate(l, Loop(ind, b, body), lo, hi, w, env);
  }

  /** An instance in a loop means one for every index, both bounds included. */
  lemma InstanceRepeats(ind: string, b: Bounds, text: string, good: bool, lo: int, hi: int, w: World, env: Env)
    requires Ranges(b, w.bound, env, lo, hi) && lo <= hi
    ensures var es := ItemMeans(Instances, Loop(ind, b, [Instance(text, good)]), w, env);
      |es| == hi - lo + 1 && forall k | 0 <= k < |es| :: es[k] == Event(text, env[ind := lo + k])
  {
    hide ItemMeans, ItemsMean, Flatten;
    var body := [Instance(text, good)];
    LoopMeans(Instances, ind, b, body, lo, hi, w, env);
    var es := seq(hi - lo + 1, k => Event(text, env[ind := lo + k]));
    forall k | 0 <= k < |es|
      ensures ItemsMean(Instances, body, w, env[ind := lo + k]) == [es[k]]
    {
      InstanceMeans(text, good, w, env[ind := lo + k]);
    }
    FlattenOnes(Iterated(Instances, ind, body, lo, hi - lo + 1, w, env), es);
  }

  lemma InstanceMeans(text: string, good: bool, w: World, env: Env)
    ensures ItemsMean(Instances, [Instance(text, good)], w, env) == [Event(text, env)]
  {
    assert [Instance(text, good)][1..] == [];
  }

  function RulesIterated(ind: string, rules: seq<Rule>, lo: int, n: nat, w: World, env: Env): (pieces: seq<seq<Event>>)
    ensures |pieces| == n && forall k | 0 <= k < n :: pieces[k] == RulesMean(rules, w, env[ind := lo + k])
  {
    seq(n, k requires 0 <= k < n => RulesMean(rules, w, env[ind := lo + k]))
  }

  lemma {:induction false} RulesIterate(r: Rule, p: int, max: int, w: World, env: Env)
    requires r.RuleLoop?
    ensures RulesFrom(r, p, max, w, env) == Flatten(RulesIterated(r.ind, r.rules, p, Steps(p, max), w, env))
    decreases max - p + 1
  {
    if p <= max {
      var rest := RulesIterated(r.ind, r.rules, p + 1, Steps(p + 1, max), w, env);
      RulesIterate(r, p + 1, max, w, env);
      assert RulesIterated(r.ind, r.rules, p, Steps(p, max), w, env) == [RulesMean(r.rules, w, env[r.ind := p])] + rest;
      FlattenFirst(RulesMean(r.rules, w, env[r.ind := p]), rest);
    }
  }

  /** The same for a loop around rules. */
  lemma RuleLoopMeans(ind: string, b: Bounds, rules: seq<Rule>, lo: int, hi: int, w: World, env: Env)
    requires Ranges(b, w.bound, env, lo, hi)
    ensures RuleMeans(RuleLoop(ind, b, rules), w, env) == Flatten(RulesIterated(ind, rules, lo, Steps(lo, hi), w, env))
  {
    RulesIterate(RuleLoop(ind, b, rules), lo, hi, w, env);
  }

  function TreesIterated(ind: string, ts: seq<Tree>, lo: int, n: nat, w: World, env: Env): (pieces: seq<seq<Event>>)
    ensures |pieces| == n && forall k | 0 <= k < n :: pieces[k] == Unroll(ts, w, env[ind := lo + k])
  {
    seq(n, k requires 0 <= k < n => Unroll(ts, w, env[ind := lo + k]))
  }

  lemma {:induction false} TreesIterate(t: Tree, p: int, max: int, w: World, env: Env)
    requires t.LoopTree?
    ensures UnrollFrom(t, p, max, w, env) == Flatten(TreesIterated(t.ind, t.body, p, Steps(p, max), w, env))
    decreases max - p + 1
  {
    if p <= max {
      var rest := TreesIterated(t.ind, t.body, p + 1, Steps(p + 1, max), w, env);
      TreesIterate(t, p + 1, max, w, env);
      assert TreesIterated(t.ind, t.body, p, Steps(p, max), w, env) == [Unroll(t.body, w, env[t.ind := p])] + rest;
      FlattenFirst(Unroll(t.body, w, env[t.ind := p]), rest);
    }
  }

  /** The same for the loop in a tree. */
  lemma LoopTreeUnrolls(ind: string, b: Bounds, ts: seq<Tree>, lo: int, hi: int, w: World, env: Env)
    requires Ranges(b, w.bound, env, lo, hi)
    ensures UnrollOne(LoopTree(ind, b, ts), w, env) == Flatten(TreesIterated(ind, ts, lo, Steps(lo, hi), w, env))
  {
    TreesIterate(LoopTree(ind, b, ts), lo, hi, w, env);
  }

  /** So a leaf in a loop is unrolled once for every index, both bounds included. */
  lemma LeafRepeats(ind: string, b: Bounds, text: string, lo: int, hi: int, w: World, env: Env)
    requires Ranges(b, w.bound, env, lo, hi) && lo <= hi
    ensures var es := UnrollOne(LoopTree(ind, b, [Leaf(text)]), w, env);
      |es| == hi - lo + 1 && forall k | 0 <= k < |es| :: es[k] == Event(text, env[ind := lo + k])
  {
    hide UnrollOne, Unroll, Flatten;
    var ts := [Leaf(text)];
    LoopTreeUnrolls(ind, b, ts, lo, hi, w, env);
    var es := seq(hi - lo + 1, k => Event(text, env[ind := lo + k]));
    forall k | 0 <= k < |es|
      ensures Unroll(ts, w, env[ind := lo + k]) == [es[k]]
    {
      UnrollSingle(Leaf(text), w, env[ind := lo + k]);
      LeafUnrolls(text, w, env[ind := lo + k]);
    }
    FlattenOnes(TreesIterated(ind, ts, lo, hi - lo + 1, w, env), es);
  }

  lemma LeafUnrolls(text: string, w: World, env: Env)
    ensures UnrollOne(Leaf(text), w, env) == [Event(text, env)]
  {
  }

  // ---- conditionals ----

  /** The guard is true, or there is none. */
  predicate Passes(g: Guard, w: World, env: Env) {
    match g
    case Else => true
    case If(expr) => w.guard(expr, env)
  }

  /** k is the first clause whose guard is true. */
  predicate Chosen(gs: seq<Guard>, k: nat, w: World, env: Env) {
    k < |gs| && Passes(gs[k], w, env) && forall j | 0 <= j < k :: !Passes(gs[j], w, env)
  }

  /** A conditional means its first clause with a true guard, and nothing if there is none; and
      so does the one in a tree. */
  lemma ConditionalMeans(l: Language, cs: seq<Clause<Item>>, k: nat, w: World, env: Env)
    ensures Chosen(Guards(cs), k, w, env) ==> ItemMeans(l, Conditional(cs), w, env) == ItemsMean(l, cs[k].body, w, env)
    ensures (forall j | 0 <= j < |cs| :: !Passes(cs[j].guard, w, env)) ==> ItemMeans(l, Conditional(cs), w, env) == []
  {
    FirstIsChosen(Guards(cs), k, w, env);
  }

  lemma RuleConditionalMeans(cs: seq<Clause<Rule>>, k: nat, w: World, env: Env)
    ensures Chosen(Guards(cs), k, w, env) ==> RuleMeans(RuleConditional(cs), w, env) == RulesMean(cs[k].body, w, env)
    ensures (forall j | 0 <= j < |cs| :: !Passes(cs[j].guard, w, env)) ==> RuleMeans(RuleConditional(cs), w, env) == []
  {
    FirstIsChosen(Guards(cs), k, w, env);
  }

  lemma CondTreeUnrolls(gs: seq<Guard>, bodies: seq<Body>, k: nat, w: World, env: Env)
    requires |gs| == |bodies|
    ensures Chosen(gs, k, w, env) ==> UnrollOne(CondTree(gs, bodies), w, env) == Unroll(bodies[k].trees, w, env)
    ensures (forall j | 0 <= j < |gs| :: !Passes(gs[j], w, env)) ==> UnrollOne(CondTree(gs, bodies), w, env) == []
  {
    FirstIsChosen(gs, k, w, env);
  }

  lemma FirstIsChosen(gs: seq<Guard>, k: nat, w: World, env: Env)
    ensures Chosen(gs, k, w, env) ==> FirstTrue(gs, w, env) == k
    ensures (forall j | 0 <= j < |gs| :: !Passes(gs[j], w, env)) ==> FirstTrue(gs, w, env) == |gs|
  {
    var f := FirstTrue(gs, w, env);
    assert f < |gs| ==> Passes(gs[f], w, env) == Holds(gs[f], w, env);
    assert forall j | 0 <= j < |gs| :: Passes(gs[j], w, env) == Holds(gs[j], w, env);
  }

  // ---- lists ----

  /** Items mean what they mean one after the other; and the languages keep apart. */
  lemma {:induction false} ItemsInTurn(l: Language, items: seq<Item>, w: World, env: Env)
    ensures ItemsMean(l, items, w, env) == Flatten(seq(|items|, k requires 0 <= k < |items| => ItemMeans(l, items[k], w, env)))
  {
    var pieces := seq(|items|, k requires 0 <= k < |items| => ItemMeans(l, items[k], w, env));
    if items != [] {
      ItemsInTurn(l, items[1..], w, env);
      assert pieces[1..] == seq(|items[1..]|, k requires 0 <= k < |items[1..]| => ItemMeans(l, items[1..][k], w, env));
    }
  }

  lemma {:induction false} RulesInTurn(rs: seq<Rule>, w: World, env: Env)
    ensures RulesMean(rs, w, env) == Flatten(seq(|rs|, k requires 0 <= k < |rs| => RuleMeans(rs[k], w, env)))
  {
    var pieces := seq(|rs|, k requires 0 <= k < |rs| => RuleMeans(rs[k], w, env));
    if rs != [] {
      RulesInTurn(rs[1..], w, env);
      assert pieces[1..] == seq(|rs[1..]|, k requires 0 <= k < |rs[1..]| => RuleMeans(rs[1..][k], w, env));
    }
  }

  lemma {:induction false} TreesInTurn(ts: seq<Tree>, w: World, env: Env)
    ensures Unroll(ts, w, env) == Flatten(seq(|ts|, k requires 0 <= k < |ts| => UnrollOne(ts[k], w, env)))
  {
    var pieces := seq(|ts|, k requires 0 <= k < |ts| => UnrollOne(ts[k], w, env));
    if ts != [] {
      TreesInTurn(ts[1..], w, env);
      assert pieces[1..] == seq(|ts[1..]|, k requires 0 <= k < |ts[1..]| => UnrollOne(ts[1..][k], w, env));
    }
  }

  /** What a single rule or body means: itself, whatever it is nested in. */
  lemma SinglesMean(text: string, good: bool, name: string, w: World, env: Env)
    ensures RuleMeans(Simple(text, good), w, env) == [Event(text, env)]
    ensures RuleMeans(Nest([Simple(text, good)]), w, env) == [Event(text, env)]
    ensures RuleMeans(Subcircuit(name, [Simple(text, good)]), w, env) == [Event(text, env)]
    ensures ItemMeans(Rules, PrsBody([Simple(text, good)]), w, env) == [Event(text, env)]
    ensures ItemMeans(Directives, SpecBody([Directive(text, good)]), w, env) == [Event(text, env)]
    ensures ItemMeans(Instances, Instance(text, good), w, env) == [Event(text, env)]
  {
    assert [Simple(text, good)][1..] == [];
    assert RulesMean([Simple(text, good)], w, env) == [Event(text, env)];
  }
}
