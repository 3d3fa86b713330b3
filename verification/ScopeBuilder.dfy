/** Building the three trees in one walk.  A node is appended to the body that is current
    before anything is put into it, becomes current itself through the frames of the parse
    context, and is taken out again if it is still empty afterwards. */
module ScopeBuilder {
  import opened LoopBounds
  import opened ScopeTrees
  import opened ScopeMeaning
  import opened ScopeErrors

  datatype Kind = LeafKind | LoopKind | CondKind | SetKind | SubKind

  /** A list of nodes: a sequential scope, a set of rules or a set of directives.  While the
      last node is still being filled, the ghost state describes the others only. */
  class Block {
    var items: seq<Node>
    ghost var repr: set<object>
    ghost var model: seq<Tree>

    ghost predicate Valid()
      reads this, repr
      decreases repr, 1
    {
      ValidUpTo(|items|)
    }

    ghost predicate ValidUpTo(n: nat)
      reads this, repr
      decreases repr, 0
    {
      && this in repr && n <= |items| && |model| == n
      && (forall k | 0 <= k < n ::
            && items[k] in repr && items[k].repr < repr && this !in items[k].repr
            && items[k].Valid() && items[k].model == model[k])
    }

    lemma Covers()
      requires Valid()
      ensures this in repr && |model| == |items|
    {
    }

    /** All but the last node are described. */
    ghost predicate Open()
      reads this, repr
    {
      items != [] && ValidUpTo(|items| - 1)
    }

    constructor ()
      ensures Valid() && repr == {this} && model == [] && items == []
    {
      items, repr, model := [], {this}, [];
    }

    method PushBack(n: Node)
      requires Valid()
      modifies this`items
      ensures Open() && items == old(items) + [n]
    {
      items := items + [n];
    }

    method PopBack()
      requires Open()
      modifies this`items
      ensures Valid() && items == old(items)[..|old(items)| - 1]
    {
      items := items[..|items| - 1];
    }

    /** The last node is finished. */
    ghost method Seal()
      requires Open() && items[|items| - 1].Valid() && this !in items[|items| - 1].repr
      modifies this`repr, this`model
      ensures Valid() && model == old(model) + [items[|items| - 1].model]
      ensures repr == old(repr) + items[|items| - 1].repr
    {
      var n := items[|items| - 1];
      repr, model := repr + n.repr, model + [n.model];
    }

    method Append(n: Node)
      requires Valid() && n.Valid() && this !in n.repr
      modifies this
      ensures Valid() && model == old(model) + [n.model] && repr == old(repr) + n.repr
    {
      PushBack(n);
      Seal();
    }
  }

  /** What is not a loop has none. */
  function NoBounds(): Bounds {
    Computed("", "")
  }

  /** A leaf, or a node with a body for every guard; loops and sets have a single body. */
  class Node {
    const kind: Kind
    const text: string
    const bounds: Bounds
    var guards: seq<Guard>
    var clauses: seq<Block>
    ghost var repr: set<object>
    ghost var model: Tree

    ghost predicate Valid()
      reads this, repr
      decreases repr, 0
    {
      && this in repr
      && (forall k | 0 <= k < |clauses| ::
            clauses[k] in repr && clauses[k].repr < repr && this !in clauses[k].repr && clauses[k].Valid())
      && Shaped() && model == TreeOf()
    }

    ghost predicate Shaped()
      reads this
    {
      match kind
      case LeafKind => clauses == []
      case CondKind => |clauses| == |guards|
      case _ => |clauses| == 1
    }

    ghost function TreeOf(): Tree
      requires Shaped()
      reads this, clauses
    {
      match kind
      case LeafKind => Tree.Leaf(text)
      case LoopKind => LoopTree(text, bounds, clauses[0].model)
      case CondKind => CondTree(guards, ModelsOf(clauses))
      case SetKind => SetTree(clauses[0].model)
      case SubKind => SubTree(text, clauses[0].model)
    }

    constructor Leaf(t: string)
      ensures Valid() && fresh(repr) && model == Tree.Leaf(t)
    {
      kind, text, bounds := LeafKind, t, NoBounds();
      guards, clauses := [], [];
      repr, model := {this}, Tree.Leaf(t);
    }

    /** A loop, a set or a subcircuit, with an empty body. */
    constructor Nested(k: Kind, t: string, b: Bounds)
      requires k == LoopKind || k == SetKind || k == SubKind
      ensures kind == k && text == t && bounds == b && |clauses| == 1
      ensures fresh(clauses[0]) && clauses[0].Valid() && clauses[0].repr == {clauses[0]} && clauses[0].model == []
    {
      kind, text, bounds := k, t, b;
      var body := new Block();
      guards, clauses := [], [body];
    }

    constructor Conditional()
      ensures kind == CondKind && guards == [] && clauses == []
    {
      kind, text, bounds := CondKind, "", NoBounds();
      guards, clauses := [], [];
    }

    method AppendGuardedClause(g: Guard)
      modifies this`guards, this`clauses
      ensures guards == old(guards) + [g] && |clauses| == |old(clauses)| + 1
      ensures clauses[..|clauses| - 1] == old(clauses)
      ensures var b := clauses[|clauses| - 1]; fresh(b) && b.Valid() && b.repr == {b} && b.model == []
    {
      var b := new Block();
      guards, clauses := guards + [g], clauses + [b];
    }

    /** Looks at the lists of the bodies only, not inside their nodes. */
    method Empty() returns (e: bool)
      ensures e <==> forall k | 0 <= k < |clauses| :: clauses[k].items == []
    {
      for k := 0 to |clauses|
        invariant forall j | 0 <= j < k :: clauses[j].items == []
      {
        if clauses[k].items != [] {
          return false;
        }
      }
      return true;
    }

    /** All bodies are finished; r covers them. */
    ghost method Close(r: set<object>)
      requires Shaped() && this in r
      requires forall k | 0 <= k < |clauses| :: this !in clauses[k].repr && clauses[k].Valid() && clauses[k].repr <= r
      modifies this`repr, this`model
      ensures Valid() && model == TreeOf() && repr == r
    {
      forall k | 0 <= k < |clauses|
        ensures clauses[k] in r && clauses[k].repr < r
      {
        assert clauses[k].ValidUpTo(|clauses[k].items|);
      }
      repr, model := r, TreeOf();
    }
  }

  ghost function ModelsOf(bs: seq<Block>): (bodies: seq<Body>)
    reads bs
    ensures |bodies| == |bs| && forall k | 0 <= k < |bs| :: bodies[k] == Body(bs[k].model)
  {
    seq(|bs|, k requires 0 <= k < |bs| reads bs => Body(bs[k].model))
  }

  /** The part of the parse context that the walk uses. */
  class ParseContext {
    var sequentialScopeStack: seq<Block>
    /** The innermost loop variable is first. */
    var loopVarStack: seq<string>
    var inConditionalScope: bool
    var currentPrsBody: Block
    var currentSpecBody: Block
    /** What else can be looked up by name. */
    const names: set<string>

    constructor (named: set<string>)
      ensures names == named && loopVarStack == [] && !inConditionalScope && |sequentialScopeStack| == 1
      ensures var s, p, d := Current(), currentPrsBody, currentSpecBody;
        && fresh(s) && fresh(p) && fresh(d) && s != p && s != d && p != d
        && s.Valid() && s.repr == {s} && s.model == []
        && p.Valid() && p.repr == {p} && p.model == []
        && d.Valid() && d.repr == {d} && d.model == []
    {
      var s := new Block();
      var p := new Block();
      var d := new Block();
      names, loopVarStack, inConditionalScope := named, [], false;
      sequentialScopeStack, currentPrsBody, currentSpecBody := [s], p, d;
    }

    function Current(): Block
      requires sequentialScopeStack != []
      reads this`sequentialScopeStack
    {
      sequentialScopeStack[|sequentialScopeStack| - 1]
    }

    ghost function Scope(): set<string>
      reads this`loopVarStack
    {
      names + set x | x in loopVarStack
    }

    /** Loop variables are distinct, and none hides another name. */
    ghost predicate NoShadows()
      reads this`loopVarStack
    {
      && (forall i, j | 0 <= i < j < |loopVarStack| :: loopVarStack[i] != loopVarStack[j])
      && (forall i | 0 <= i < |loopVarStack| :: loopVarStack[i] !in names)
    }

    /** What the frames do when they are unwound. */
    method Unwind(prs: Block, spec: Block, cond: bool)
      requires sequentialScopeStack != []
      modifies this`sequentialScopeStack, this`inConditionalScope, this`currentPrsBody, this`currentSpecBody
      ensures sequentialScopeStack == old(sequentialScopeStack)[..|old(sequentialScopeStack)| - 1]
      ensures inConditionalScope == cond && currentPrsBody == prs && currentSpecBody == spec
    {
      currentPrsBody, currentSpecBody := prs, spec;
      sequentialScopeStack := sequentialScopeStack[..|sequentialScopeStack| - 1];
      inConditionalScope := cond;
    }

    /** Everything that the frames save and restore. */
    ghost function State(): (seq<Block>, seq<string>, bool, Block, Block)
      reads this
    {
      (sequentialScopeStack, loopVarStack, inConditionalScope, currentPrsBody, currentSpecBody)
    }

    /** The three current bodies are finished, and share nothing. */
    ghost predicate Ready()
      reads this, sequentialScopeStack, currentPrsBody, currentSpecBody
      reads if sequentialScopeStack != [] then Current().repr else {}
      reads currentPrsBody.repr, currentSpecBody.repr
    {
      NoShadows() && Settled()
    }

    ghost predicate Settled()
      reads this`sequentialScopeStack, this`currentPrsBody, this`currentSpecBody
      reads sequentialScopeStack, currentPrsBody, currentSpecBody
      reads if sequentialScopeStack != [] then Current().repr else {}
      reads currentPrsBody.repr, currentSpecBody.repr
    {
      && sequentialScopeStack != []
      && Current().Valid() && currentPrsBody.Valid() && currentSpecBody.Valid()
      && Apart()
    }

    ghost predicate Apart()
      requires sequentialScopeStack != []
      reads this`sequentialScopeStack, this`currentPrsBody, this`currentSpecBody
      reads sequentialScopeStack, currentPrsBody, currentSpecBody
    {
      && Current().repr !! currentPrsBody.repr !! currentSpecBody.repr
      && this !in Current().repr && this !in currentPrsBody.repr && this !in currentSpecBody.repr
    }

    lemma Members()
      requires Ready()
      ensures sequentialScopeStack != [] && NoShadows() && Apart()
      ensures Current().Valid() && currentPrsBody.Valid() && currentSpecBody.Valid()
      ensures Current() in Current().repr && currentPrsBody in currentPrsBody.repr
      ensures currentSpecBody in currentSpecBody.repr
    {
      Current().Covers();
      currentPrsBody.Covers();
      currentSpecBody.Covers();
    }

    ghost function Bodies(): Models
      requires sequentialScopeStack != []
      reads this`sequentialScopeStack, this`currentPrsBody, this`currentSpecBody
      reads sequentialScopeStack, currentPrsBody, currentSpecBody
    {
      (Current().model, currentPrsBody.model, currentSpecBody.model)
    }

    ghost function Footprint(): set<object>
      requires sequentialScopeStack != []
      reads this`sequentialScopeStack, this`currentPrsBody, this`currentSpecBody
      reads sequentialScopeStack, currentPrsBody, currentSpecBody
    {
      Current().repr + currentPrsBody.repr + currentSpecBody.repr
    }

    /** Loop variables first, innermost first, then everything else. */
    method LookupObject(id: string) returns (found: bool, binder: nat)
      ensures found <==> id in Scope()
      ensures found && binder < |loopVarStack| ==> loopVarStack[binder] == id
      ensures found && binder < |loopVarStack| && NoShadows() ==>
        id !in names && forall j | 0 <= j < |loopVarStack| && loopVarStack[j] == id :: j == binder
      ensures found && binder >= |loopVarStack| ==> id !in loopVarStack && id in names
    {
      binder := 0;
      while binder < |loopVarStack|
        invariant 0 <= binder <= |loopVarStack|
        invariant forall j | 0 <= j < binder :: loopVarStack[j] != id
      {
        if loopVarStack[binder] == id {
          return true, binder;
        }
        binder := binder + 1;
      }
      found := id in names;
    }

    /** A name that can already be looked up is refused. */
    method PushLoopVar(id: string) returns (ok: bool)
      requires NoShadows()
      modifies this`loopVarStack
      ensures ok <==> id !in old(Scope())
      ensures loopVarStack == if ok then [id] + old(loopVarStack) else old(loopVarStack)
      ensures NoShadows() && Scope() == if ok then old(Scope()) + {id} else old(Scope())
    {
      var found, _ := LookupObject(id);
      ok := !found;
      if ok {
        loopVarStack := [id] + loopVarStack;
      }
    }

    method PopLoopVar()
      requires loopVarStack != []
      modifies this`loopVarStack
      ensures loopVarStack == old(loopVarStack)[1..]
    {
      loopVarStack := loopVarStack[1..];
    }
  }

  /** Takes the last node out again if there is nothing in any of its bodies.  With keep, the
      walk was cut short and nobody looks. */
  method Finish(b: Block, n: Node, keep: bool, ghost r: set<object>)
    requires b.Open() && b.items[|b.items| - 1] == n && n.Shaped() && n.kind != LeafKind
    requires n in r && b !in r && n !in b.repr
    requires forall k | 0 <= k < |n.clauses| ::
               n !in n.clauses[k].repr && n.clauses[k].Valid() && n.clauses[k].repr <= r
    modifies b, n`repr, n`model
    ensures b.Valid() && b.repr <= old(b.repr) + r
    ensures b.model == old(b.model) + Remaining(old(n.TreeOf()), keep)
  {
    hide Block.Valid, Block.ValidUpTo, Node.Valid;
    ghost var t := n.TreeOf();
    var empty := n.Empty();
    EmptyBodies(n);
    if empty && !keep {
      b.PopBack();
    } else {
      n.Close(r);
      b.Seal();
    }
  }

  lemma EmptyBodies(n: Node)
    requires n.Shaped() && n.kind != LeafKind && forall k | 0 <= k < |n.clauses| :: n.clauses[k].Valid()
    ensures Hollow(n.TreeOf()) <==> forall k | 0 <= k < |n.clauses| :: n.clauses[k].items == []
  {
    assert forall k | 0 <= k < |n.clauses| :: n.clauses[k].ValidUpTo(|n.clauses[k].items|);
    if n.kind == CondKind {
      assert forall k | 0 <= k < |n.clauses| :: ModelsOf(n.clauses)[k].trees == n.clauses[k].model;
    }
  }

  predicate Hollow(t: Tree) {
    match t
    case Leaf(_) => false
    case LoopTree(_, _, body) => body == []
    case CondTree(_, clauses) => AllEmpty(clauses)
    case SetTree(body) => body == []
    case SubTree(_, body) => body == []
  }

  function Remaining(t: Tree, keep: bool): seq<Tree> {
    if Hollow(t) && !keep then [] else [t]
  }

  /** Checks rules in order, until one is in error. */
  method CheckRules(c: ParseContext, rs: seq<Rule>) returns (threw: bool)
    requires c.NoShadows() && c.currentPrsBody.Valid() && c !in c.currentPrsBody.repr
    modifies c, c.currentPrsBody
    ensures c.State() == old(c.State())
    ensures RulesAppended(c.currentPrsBody, old(c.currentPrsBody.model), BuildRules(rs, old(c.Scope())).trees)
    ensures threw == BuildRules(rs, old(c.Scope())).threw
    ensures fresh(c.currentPrsBody.repr - old(c.currentPrsBody.repr))
    decreases rs, 1
  {
    hide Block.Valid, BuildRule;
    ghost var scope := c.Scope();
    var b := c.currentPrsBody;
    assert rs[0..] == rs;
    for i := 0 to |rs|
      invariant c.State() == old(c.State()) && b.Valid()
      invariant b.model + BuildRules(rs[i..], scope).trees == old(b.model) + BuildRules(rs, scope).trees
      invariant BuildRules(rs[i..], scope).threw == BuildRules(rs, scope).threw
      invariant fresh(b.repr - old(b.repr))
    {
      assert rs[i..][1..] == rs[i + 1..];
      threw := CheckRule(c, rs[i]);
      if threw {
        return;
      }
    }
    threw := false;
  }

  ghost predicate RulesAppended(b: Block, before: seq<Tree>, added: seq<Tree>)
    reads b, b.repr
  {
    b.Valid() && b.model == before + added
  }

  method CheckRule(c: ParseContext, r: Rule) returns (threw: bool)
    requires c.NoShadows() && c.currentPrsBody.Valid() && c !in c.currentPrsBody.repr
    modifies c, c.currentPrsBody
    ensures c.State() == old(c.State())
    ensures RulesAppended(c.currentPrsBody, old(c.currentPrsBody.model), BuildRule(r, old(c.Scope())).trees)
    ensures threw == BuildRule(r, old(c.Scope())).threw
    ensures fresh(c.currentPrsBody.repr - old(c.currentPrsBody.repr))
    decreases r, 1
  {
    hide Block.Valid;
    if r.Simple? {
      if r.good {
        var leaf := new Node.Leaf(r.text);
        c.currentPrsBody.Append(leaf);
      }
      threw := !r.good;
    } else if r.RuleLoop? {
      threw := CheckRuleLoop(c, r);
    } else if r.RuleConditional? {
      CheckRuleConditional(c, r);
      threw := false;
    } else if r.Nest? {
      threw := CheckRules(c, r.rules);
    } else {
      var sub := new Node.Nested(SubKind, r.name, NoBounds());
      threw := CheckNested(c, r.rules, sub);
    }
  }

  /** Rules inside a node of their own. */
  method CheckNested(c: ParseContext, rs: seq<Rule>, n: Node) returns (threw: bool)
    requires c.NoShadows() && c.currentPrsBody.Valid() && c !in c.currentPrsBody.repr
    requires n !in c.currentPrsBody.repr && n.kind in {LoopKind, SetKind, SubKind} && |n.clauses| == 1
    requires var body := n.clauses[0];
      body.Valid() && body.model == [] && body.repr == {body} && body !in c.currentPrsBody.repr
    modifies c, c.currentPrsBody, n`repr, n`model, n.clauses
    ensures c.State() == old(c.State())
    ensures var built := BuildRules(rs, old(c.Scope()));
      && threw == built.threw
      && c.currentPrsBody.Valid()
      && c.currentPrsBody.model == old(c.currentPrsBody.model) + Remaining(NestedTree(n, built.trees), threw)
    ensures fresh(c.currentPrsBody.repr - old(c.currentPrsBody.repr) - {n, n.clauses[0]})
    decreases rs, 2
  {
    hide Block.Valid, BuildRules;
    var b, body := c.currentPrsBody, n.clauses[0];
    b.PushBack(n);
    c.currentPrsBody := body;
    threw := CheckRules(c, rs);
    c.currentPrsBody := b;
    assert body.model == BuildRules(rs, old(c.Scope())).trees;
    assert n.TreeOf() == NestedTree(n, body.model);
    Finish(b, n, threw, {n} + body.repr);
  }

  function NestedTree(n: Node, body: seq<Tree>): Tree
    reads n
  {
    match n.kind
    case LoopKind => LoopTree(n.text, n.bounds, body)
    case SetKind => SetTree(body)
    case _ => SubTree(n.text, body)
  }

  method CheckRuleLoop(c: ParseContext, r: Rule) returns (threw: bool)
    requires r.RuleLoop?
    requires c.NoShadows() && c.currentPrsBody.Valid() && c !in c.currentPrsBody.repr
    modifies c, c.currentPrsBody
    ensures c.State() == old(c.State())
    ensures RulesAppended(c.currentPrsBody, old(c.currentPrsBody.model), BuildRule(r, old(c.Scope())).trees)
    ensures threw == BuildRule(r, old(c.Scope())).threw
    ensures fresh(c.currentPrsBody.repr - old(c.currentPrsBody.repr))
    decreases r, 0
  {
    hide Block.Valid, BuildRules;
    if OutOfOrder(r.bounds) {
      return false;
    }
    var ok := c.PushLoopVar(r.ind);
    if !ok {
      return false;
    }
    var ret := new Node.Nested(LoopKind, r.ind, r.bounds);
    threw := CheckNested(c, r.rules, ret);
    c.PopLoopVar();
  }

  method CheckRuleConditional(c: ParseContext, r: Rule)
    requires r.RuleConditional?
    requires c.NoShadows() && c.currentPrsBody.Valid() && c !in c.currentPrsBody.repr
    modifies c, c.currentPrsBody
    ensures c.State() == old(c.State())
    ensures RulesAppended(c.currentPrsBody, old(c.currentPrsBody.model), BuildRule(r, old(c.Scope())).trees)
    ensures fresh(c.currentPrsBody.repr - old(c.currentPrsBody.repr))
    decreases r, 0
  {
    hide Block.Valid, Block.Open, BuildRules, RuleClausesDone;
    ghost var scope := c.Scope();
    var b := c.currentPrsBody;
    var rs := new Node.Conditional();
    b.PushBack(rs);
    ghost var all: set<object> := {rs};
    NoRuleClauses(rs, r.clauses, scope, all);
    for i := 0 to |r.clauses|
      invariant c.State() == old(c.State()) && b.Open() && b.items != [] && b.items[|b.items| - 1] == rs
      invariant b.repr == old(b.repr) && b.model == old(b.model) && fresh(all)
      invariant RuleClausesDone(rs, r.clauses, i, scope, all)
    {
      all := CheckClause(c, r.clauses, i, all);
    }
    RuleClausesFinished(rs, r.clauses, scope, all);
    Finish(b, rs, false, all);
  }

  /** The first n clauses are in place. */
  ghost predicate RuleClausesDone(rs: Node, cs: seq<Clause<Rule>>, n: nat, scope: set<string>, all: set<object>)
    reads rs, all
  {
    && rs.kind == CondKind && rs in all && n <= |cs|
    && |rs.clauses| == n && rs.guards == Guards(cs)[..n]
    && (forall k | 0 <= k < n ::
          && rs.clauses[k] in all && rs.clauses[k].repr <= all && rs !in rs.clauses[k].repr
          && rs.clauses[k].Valid() && rs.clauses[k].model == BuildRules(cs[k].body, scope).trees)
  }

  lemma NoRuleClauses(rs: Node, cs: seq<Clause<Rule>>, scope: set<string>, all: set<object>)
    requires rs.kind == CondKind && rs.clauses == [] && rs.guards == [] && rs in all
    ensures RuleClausesDone(rs, cs, 0, scope, all)
  {
  }

  lemma RuleClausesFinished(rs: Node, cs: seq<Clause<Rule>>, scope: set<string>, all: set<object>)
    requires RuleClausesDone(rs, cs, |cs|, scope, all)
    ensures rs in all && rs.kind == CondKind && rs.Shaped()
    ensures rs.TreeOf() == CondTree(Guards(cs), RuleBodies(cs, scope))
    ensures forall k | 0 <= k < |rs.clauses| ::
              rs !in rs.clauses[k].repr && rs.clauses[k].Valid() && rs.clauses[k].repr <= all
  {
    hide Block.Valid, BuildRules;
    assert Guards(cs)[..|cs|] == Guards(cs);
    assert ModelsOf(rs.clauses) == RuleBodies(cs, scope);
  }

  /** One clause: it is appended to the conditional that is last in the current body, and
      becomes current itself.  An error in its rules is reported, but goes no further. */
  method CheckClause(c: ParseContext, cs: seq<Clause<Rule>>, i: nat, ghost all: set<object>) returns (ghost more: set<object>)
    requires i < |cs| && c.NoShadows() && c !in all
    requires var b := c.currentPrsBody;
      b.items != [] && RuleClausesDone(b.items[|b.items| - 1], cs, i, c.Scope(), all)
    modifies c, c.currentPrsBody.items[|c.currentPrsBody.items| - 1]
    ensures c.State() == old(c.State()) && all <= more && fresh(more - all)
    ensures unchanged(c.currentPrsBody)
    ensures RuleClausesDone(c.currentPrsBody.items[|c.currentPrsBody.items| - 1], cs, i + 1, old(c.Scope()), more)
    decreases cs, 0
  {
    hide Block.Valid, BuildRules;
    var b := c.currentPrsBody;
    var rs := b.items[|b.items| - 1];
    rs.AppendGuardedClause(cs[i].guard);
    var body := rs.clauses[i];
    c.currentPrsBody := body;
    var swallowed := CheckRules(c, cs[i].body);
    c.currentPrsBody := b;
    body.Covers();
    more := all + body.repr;
    assert Guards(cs)[..i + 1] == Guards(cs)[..i] + [cs[i].guard];
  }

  // ---- all three languages ----

  type Models = (seq<Tree>, seq<Tree>, seq<Tree>)

  /** Each of the three bodies has what its language makes of the items appended to it. */
  ghost predicate ItemsBuilt(now: Models, before: Models, items: seq<Item>, scope: set<string>) {
    && now.0 == before.0 + Build(Instances, items, scope)
    && now.1 == before.1 + Build(Rules, items, scope)
    && now.2 == before.2 + Build(Directives, items, scope)
  }

  ghost predicate ItemBuilt(now: Models, before: Models, i: Item, scope: set<string>) {
    && now.0 == before.0 + BuildItem(Instances, i, scope)
    && now.1 == before.1 + BuildItem(Rules, i, scope)
    && now.2 == before.2 + BuildItem(Directives, i, scope)
  }

  lemma ItemsBuiltNone(m: Models, scope: set<string>)
    ensures ItemsBuilt(m, m, [], scope)
  {
  }

  lemma {:induction false} ItemsBuiltNext(first: Models, before: Models, now: Models,
                                          items: seq<Item>, i: nat, scope: set<string>)
    requires i < |items|
    requires ItemsBuilt(before, first, items[..i], scope) && ItemBuilt(now, before, items[i], scope)
    ensures ItemsBuilt(now, first, items[..i + 1], scope)
  {
    BuildSnoc(Instances, items[..i], items[i], scope);
    BuildSnoc(Rules, items[..i], items[i], scope);
    BuildSnoc(Directives, items[..i], items[i], scope);
    assert items[..i] + [items[i]] == items[..i + 1];
  }

  lemma {:induction false} BuildSnoc(l: Language, items: seq<Item>, i: Item, scope: set<string>)
    ensures Build(l, items + [i], scope) == Build(l, items, scope) + BuildItem(l, i, scope)
  {
    if items != [] {
      assert (items + [i])[1..] == items[1..] + [i];
      BuildSnoc(l, items[1..], i, scope);
    }
  }

  /** Checks items in order, until one is refused.  Whatever happens, the frames put the
      context back as it was. */
  method CheckItems(c: ParseContext, items: seq<Item>) returns (ok: bool)
    requires c.Ready()
    modifies c, c.Current(), c.currentPrsBody, c.currentSpecBody
    ensures c.State() == old(c.State())
    ensures ok <==> Accepted(items, old(c.Scope()))
    ensures ok ==> c.Ready() && ItemsBuilt(c.Bodies(), old(c.Bodies()), items, old(c.Scope()))
    ensures ok ==> fresh(c.Footprint() - old(c.Footprint()))
    decreases items, 1
  {
    hide Block.Valid, AcceptedItem, ItemsBuilt, ItemBuilt;
    c.Members();
    ghost var scope := c.Scope();
    ItemsBuiltNone(c.Bodies(), scope);
    for i := 0 to |items|
      invariant c.State() == old(c.State()) && c.Ready()
      invariant ItemsBuilt(c.Bodies(), old(c.Bodies()), items[..i], scope)
      invariant forall k | 0 <= k < i :: AcceptedItem(items[k], scope)
      invariant fresh(c.Footprint() - old(c.Footprint()))
    {
      c.Members();
      ghost var before := c.Bodies();
      ok := CheckItem(c, items[i]);
      if !ok {
        return;
      }
      ItemsBuiltNext(old(c.Bodies()), before, c.Bodies(), items, i, scope);
    }
    assert items[..|items|] == items;
    ok := true;
  }

  method CheckItem(c: ParseContext, i: Item) returns (ok: bool)
    requires c.Ready()
    modifies c, c.Current(), c.currentPrsBody, c.currentSpecBody
    ensures c.State() == old(c.State())
    ensures ok <==> AcceptedItem(i, old(c.Scope()))
    ensures ok ==> c.Ready() && ItemBuilt(c.Bodies(), old(c.Bodies()), i, old(c.Scope()))
    ensures ok ==> fresh(c.Footprint() - old(c.Footprint()))
    decreases i, 1
  {
    hide Block.Valid;
    c.Members();
    if i.Instance? {
      if i.good {
        var leaf := new Node.Leaf(i.text);
        c.Current().Append(leaf);
      }
      ok := i.good;
    } else if i.PrsBody? {
      ok := CheckPrsBody(c, i);
    } else if i.SpecBody? {
      ok := CheckSpecBody(c, i);
    } else if i.Loop? {
      ok := CheckLoop(c, i);
    } else {
      ok := CheckConditional(c, i);
    }
  }

  /** A body of rules is a set of its own, unless it is empty. */
  method CheckPrsBody(c: ParseContext, i: Item) returns (ok: bool)
    requires i.PrsBody? && c.Ready()
    modifies c, c.currentPrsBody
    ensures c.State() == old(c.State())
    ensures ok <==> AcceptedItem(i, old(c.Scope()))
    ensures ok ==> c.Ready() && ItemBuilt(c.Bodies(), old(c.Bodies()), i, old(c.Scope()))
    ensures ok ==> fresh(c.Footprint() - old(c.Footprint()))
  {
    hide Block.Valid, BuildRules;
    c.Members();
    ThrewExactly(i.rules, c.Scope());
    var rules := new Node.Nested(SetKind, "", NoBounds());
    var threw := CheckNested(c, i.rules, rules);
    ok := !threw;
  }

  method CheckSpecBody(c: ParseContext, i: Item) returns (ok: bool)
    requires i.SpecBody? && c.Ready()
    modifies c.currentSpecBody
    ensures ok <==> AcceptedItem(i, old(c.Scope()))
    ensures ok ==> c.Ready() && ItemBuilt(c.Bodies(), old(c.Bodies()), i, old(c.Scope()))
    ensures ok ==> fresh(c.Footprint() - old(c.Footprint()))
  {
    hide Block.Valid;
    c.Members();
    var b := c.currentSpecBody;
    for k := 0 to |i.directives|
      invariant b.Valid() && b.model == old(b.model) + BuildDirectives(i.directives)[..k]
      invariant fresh(b.repr - old(b.repr))
      invariant forall j | 0 <= j < k :: i.directives[j].good
    {
      if !i.directives[k].good {
        return false;
      }
      var leaf := new Node.Leaf(i.directives[k].text);
      b.Append(leaf);
    }
    ok := true;
  }

  /** n is the last node of b and still open; r covers it. */
  ghost predicate Pending(b: Block, n: Node, r: set<object>)
    reads b, b.repr, n, r
  {
    && b in b.repr && b.Open() && b.items[|b.items| - 1] == n
    && n.Shaped() && n.kind != LeafKind && n in r && n !in b.repr
    && (forall k | 0 <= k < |n.clauses| ::
          && n.clauses[k] in r && n.clauses[k].repr <= r
          && n !in n.clauses[k].repr && n.clauses[k].Valid())
  }

  /** The three nodes of a loop or conditional, each kept only if its language has anything
      in it. */
  method FinishAll(c: ParseContext, m: Node, ghost q: set<object>, n: Node, ghost r: set<object>, o: Node, ghost s: set<object>)
    requires c.NoShadows() && c.sequentialScopeStack != []
    requires Pending(c.Current(), m, q) && Pending(c.currentPrsBody, n, r) && Pending(c.currentSpecBody, o, s)
    requires (c.Current().repr + q) !! (c.currentPrsBody.repr + r) !! (c.currentSpecBody.repr + s)
    requires c.Current().repr !! q && c.currentPrsBody.repr !! r && c.currentSpecBody.repr !! s
    requires c !in c.Footprint() + q + r + s
    modifies c.Current(), c.currentPrsBody, c.currentSpecBody
    modifies m`repr, m`model, n`repr, n`model, o`repr, o`model
    ensures c.Ready() && c.Footprint() <= old(c.Footprint()) + q + r + s
    ensures c.Bodies().0 == old(c.Bodies().0) + Remaining(old(m.TreeOf()), false)
    ensures c.Bodies().1 == old(c.Bodies().1) + Remaining(old(n.TreeOf()), false)
    ensures c.Bodies().2 == old(c.Bodies().2) + Remaining(old(o.TreeOf()), false)
  {
    hide Block.Valid, Block.Open, Remaining;
    Finish(c.Current(), m, false, q);
    Finish(c.currentPrsBody, n, false, r);
    Finish(c.currentSpecBody, o, false, s);
  }

  /** n, with a single body, is the last node of b and still open. */
  ghost predicate Opened(b: Block, n: Node)
    reads b, b.repr, n
  {
    && b in b.repr && b.Open() && b.items[|b.items| - 1] == n
    && n.kind == LoopKind && |n.clauses| == 1 && n !in b.repr
  }

  lemma OpenedPending(b: Block, n: Node)
    requires Opened(b, n)
    requires n.clauses[0].Valid() && n !in n.clauses[0].repr && n.clauses[0] in n.clauses[0].repr
    ensures Pending(b, n, {n} + n.clauses[0].repr)
    ensures n.TreeOf() == LoopTree(n.text, n.bounds, n.clauses[0].model)
  {
  }

  /** A node for the loop, appended to b. */
  method OpenLoop(b: Block, i: Item) returns (n: Node)
    requires i.Loop? && b.Valid()
    modifies b`items
    ensures Opened(b, n) && fresh(n) && n.text == i.ind && n.bounds == i.bounds
    ensures fresh(n.clauses[0]) && n.clauses[0].Valid() && n.clauses[0].repr == {n.clauses[0]} && n.clauses[0].model == []
  {
    b.Covers();
    n := new Node.Nested(LoopKind, i.ind, i.bounds);
    b.PushBack(n);
  }

  method CheckLoop(c: ParseContext, i: Item) returns (ok: bool)
    requires i.Loop? && c.Ready()
    modifies c, c.Current(), c.currentPrsBody, c.currentSpecBody
    ensures c.State() == old(c.State())
    ensures ok <==> AcceptedItem(i, old(c.Scope()))
    ensures ok ==> c.Ready() && ItemBuilt(c.Bodies(), old(c.Bodies()), i, old(c.Scope()))
    ensures ok ==> fresh(c.Footprint() - old(c.Footprint()))
    decreases i, 0
  {
    hide Block.Valid, Build, Accepted, LoopOf, ParseContext.Settled, ParseContext.Bodies;
    LoopBuilt(i, c.Scope());
    c.Members();
    if OutOfOrder(i.bounds) {
      return false;
    }
    ok := c.PushLoopVar(i.ind);
    if ok {
      ok := CheckLoopBody(c, i);
      if ok {
        c.Members();
      }
      c.PopLoopVar();
    }
  }

  /** With the loop variable in scope: the three nodes go in, are filled, and come out again
      where they stayed empty. */
  method CheckLoopBody(c: ParseContext, i: Item) returns (ok: bool)
    requires i.Loop? && c.Ready()
    modifies c, c.Current(), c.currentPrsBody, c.currentSpecBody
    ensures c.State() == old(c.State())
    ensures ok <==> Accepted(i.body, old(c.Scope()))
    ensures ok ==> c.Ready() && fresh(c.Footprint() - old(c.Footprint()))
    ensures ok ==> c.Bodies().0 == old(c.Bodies().0) + LoopOf(Instances, i, old(c.Scope()))
    ensures ok ==> c.Bodies().1 == old(c.Bodies().1) + LoopOf(Rules, i, old(c.Scope()))
    ensures ok ==> c.Bodies().2 == old(c.Bodies().2) + LoopOf(Directives, i, old(c.Scope()))
    decreases i.body, 2
  {
    hide Block.Valid, Build, Accepted, Opened, LoopOf, ParseContext.Settled, ItemsBuilt, ParseContext.Bodies;
    c.Members();
    var sc, pr, sp := c.Current(), c.currentPrsBody, c.currentSpecBody;
    var ls, prl, srl := EnterLoop(c, i);
    c.Members();
    assert Opened(sc, ls) && Opened(pr, prl) && Opened(sp, srl);
    ok := CheckItems(c, i.body);
    if ok {
      c.Members();
      ghost var inner := c.Footprint();
      assert fresh(inner) && inner !! {ls} !! {prl} !! {srl};
      LeaveLoop(c, i, old(c.Scope()), sc, pr, sp, ls, prl, srl);
    } else {
      c.Unwind(pr, sp, c.inConditionalScope);
    }
  }

  /** Back to the bodies around the loop. */
  method LeaveLoop(c: ParseContext, i: Item, ghost scope: set<string>, sc: Block, pr: Block, sp: Block, ls: Node, prl: Node, srl: Node)
    requires i.Loop? && c.Ready() && Opened(sc, ls) && Opened(pr, prl) && Opened(sp, srl)
    requires ls.text == prl.text == srl.text == i.ind
    requires ls.bounds == prl.bounds == srl.bounds == i.bounds
    requires ItemsBuilt(c.Bodies(), ([], [], []), i.body, scope)
    requires c.Current() == ls.clauses[0] && c.currentPrsBody == prl.clauses[0] && c.currentSpecBody == srl.clauses[0]
    requires |c.sequentialScopeStack| >= 2 && c.sequentialScopeStack[|c.sequentialScopeStack| - 2] == sc
    requires sc.repr !! pr.repr !! sp.repr !! {ls} !! {prl} !! {srl} !! c.Footprint()
    requires c !in sc.repr + pr.repr + sp.repr
    modifies c`sequentialScopeStack, c`inConditionalScope, c`currentPrsBody, c`currentSpecBody
    modifies sc, pr, sp, ls`repr, ls`model, prl`repr, prl`model, srl`repr, srl`model
    ensures c.sequentialScopeStack == old(c.sequentialScopeStack)[..|old(c.sequentialScopeStack)| - 1]
    ensures c.inConditionalScope == old(c.inConditionalScope)
    ensures c.currentPrsBody == pr && c.currentSpecBody == sp && c.Ready()
    ensures c.Footprint() <= old(sc.repr + pr.repr + sp.repr + c.Footprint()) + {ls, prl, srl}
    ensures c.Bodies().0 == old(sc.model) + LoopOf(Instances, i, scope)
    ensures c.Bodies().1 == old(pr.model) + LoopOf(Rules, i, scope)
    ensures c.Bodies().2 == old(sp.model) + LoopOf(Directives, i, scope)
  {
    hide Block.Valid, Block.Open, Remaining, Pending, Build;
    assert c.Current().model == Build(Instances, i.body, scope);
    assert c.currentPrsBody.model == Build(Rules, i.body, scope);
    assert c.currentSpecBody.model == Build(Directives, i.body, scope);
    c.Members();
    OpenedPending(sc, ls);
    OpenedPending(pr, prl);
    OpenedPending(sp, srl);
    ghost var q, r, s := {ls} + ls.clauses[0].repr, {prl} + prl.clauses[0].repr, {srl} + srl.clauses[0].repr;
    c.Unwind(pr, sp, c.inConditionalScope);
    FinishAll(c, ls, q, prl, r, srl, s);
  }

  method EnterLoop(c: ParseContext, i: Item) returns (ls: Node, prl: Node, srl: Node)
    requires i.Loop? && c.Ready()
    modifies c`sequentialScopeStack, c`currentPrsBody, c`currentSpecBody
    modifies c.Current()`items, c.currentPrsBody`items, c.currentSpecBody`items
    ensures var sc, pr, sp := old(c.Current()), old(c.currentPrsBody), old(c.currentSpecBody);
      && Opened(sc, ls) && Opened(pr, prl) && Opened(sp, srl)
      && (sc.model, pr.model, sp.model) == old(c.Bodies())
      && sc.repr == old(sc.repr) && pr.repr == old(pr.repr) && sp.repr == old(sp.repr)
    ensures ls.text == prl.text == srl.text == i.ind
    ensures ls.bounds == prl.bounds == srl.bounds == i.bounds
    ensures c.sequentialScopeStack == old(c.sequentialScopeStack) + [ls.clauses[0]]
    ensures c.currentPrsBody == prl.clauses[0] && c.currentSpecBody == srl.clauses[0]
    ensures c.Ready() && c.Bodies() == ([], [], [])
    ensures fresh({ls, prl, srl}) && ls != prl && ls != srl && prl != srl
    ensures fresh(c.Footprint()) && c.Footprint() !! {ls, prl, srl}
  {
    hide Block.Valid, Block.Open, Opened, Block.ValidUpTo, ParseContext.NoShadows;
    c.Members();
    var sc, pr, sp := c.Current(), c.currentPrsBody, c.currentSpecBody;
    ls := OpenLoop(sc, i);
    prl := OpenLoop(pr, i);
    srl := OpenLoop(sp, i);
    c.sequentialScopeStack := c.sequentialScopeStack + [ls.clauses[0]];
    c.currentPrsBody, c.currentSpecBody := prl.clauses[0], srl.clauses[0];
  }

  lemma LoopBuilt(i: Item, scope: set<string>)
    requires i.Loop?
    ensures forall l :: BuildItem(l, i, scope) == LoopOf(l, i, scope + {i.ind})
  {
    hide Build;
  }

  function LoopOf(l: Language, i: Item, scope: set<string>): seq<Tree>
    requires i.Loop?
  {
    Remaining(LoopTree(i.ind, i.bounds, Build(l, i.body, scope)), false)
  }

  /** The first k clauses are in place, within all. */
  ghost predicate ClausesDone(l: Language, n: Node, cs: seq<Clause<Item>>, k: nat, scope: set<string>, all: set<object>)
    reads n, all
  {
    && n.kind == CondKind && n in all && k <= |cs|
    && |n.clauses| == k && n.guards == Guards(cs)[..k]
    && (forall j | 0 <= j < k :: ClauseDone(l, n, cs[j], j, scope, all))
  }

  ghost predicate ClauseDone(l: Language, n: Node, clause: Clause<Item>, j: nat, scope: set<string>, all: set<object>)
    requires j < |n.clauses|
    reads n, all
  {
    && n.clauses[j] in all && n.clauses[j].repr <= all && n !in n.clauses[j].repr
    && n.clauses[j].Valid() && n.clauses[j].model == Build(l, clause.body, scope)
  }

  /** Another clause has been appended, and its body is being filled. */
  ghost predicate ClauseOpen(l: Language, n: Node, cs: seq<Clause<Item>>, k: nat, scope: set<string>, all: set<object>)
    reads n, all
  {
    && n.kind == CondKind && n in all && k < |cs|
    && |n.clauses| == k + 1 && n.guards == Guards(cs)[..k + 1]
    && (forall j | 0 <= j < k :: ClauseDone(l, n, cs[j], j, scope, all))
  }

  method OpenClause(n: Node, cs: seq<Clause<Item>>, k: nat, ghost l: Language, ghost scope: set<string>, ghost all: set<object>)
    requires k < |cs| && ClausesDone(l, n, cs, k, scope, all)
    modifies n`guards, n`clauses
    ensures ClauseOpen(l, n, cs, k, scope, all)
    ensures var b := n.clauses[k]; fresh(b) && b.Valid() && b.repr == {b} && b.model == []
  {
    hide Block.Valid;
    n.AppendGuardedClause(cs[k].guard);
    assert Guards(cs)[..k + 1] == Guards(cs)[..k] + [cs[k].guard];
    forall j | 0 <= j < k
      ensures ClauseDone(l, n, cs[j], j, scope, all)
    {
      assert old(ClauseDone(l, n, cs[j], j, scope, all));
      assert n.clauses[j] == old(n.clauses)[j];
    }
  }

  lemma ClauseFilled(l: Language, n: Node, cs: seq<Clause<Item>>, k: nat, scope: set<string>, all: set<object>)
    requires ClauseOpen(l, n, cs, k, scope, all)
    requires var b := n.clauses[k]; b.Valid() && b in b.repr && n !in b.repr && b.model == Build(l, cs[k].body, scope)
    ensures ClausesDone(l, n, cs, k + 1, scope, all + n.clauses[k].repr)
  {
    hide Block.Valid, Build;
  }

  lemma ClausesFinished(l: Language, b: Block, n: Node, cs: seq<Clause<Item>>, scope: set<string>, all: set<object>)
    requires ClausesDone(l, n, cs, |cs|, scope, all)
    requires Standing(b, n)
    ensures Pending(b, n, all)
    ensures n.Shaped() && n.TreeOf() == CondTree(Guards(cs), ScopeTrees.Bodies(l, cs, scope))
  {
    hide Block.Valid, Block.Open, Build;
    assert Guards(cs)[..|cs|] == Guards(cs);
    forall j | 0 <= j < |cs|
      ensures n.clauses[j].model == Build(l, cs[j].body, scope)
    {
      assert ClauseDone(l, n, cs[j], j, scope, all);
    }
    assert ModelsOf(n.clauses) == ScopeTrees.Bodies(l, cs, scope);
  }

  /** A conditional node, appended to b. */
  method OpenConditional(b: Block) returns (n: Node)
    requires b.Valid()
    modifies b`items
    ensures Standing(b, n) && fresh(n) && n.guards == [] && n.clauses == []
  {
    b.Covers();
    n := new Node.Conditional();
    b.PushBack(n);
  }

  method CheckConditional(c: ParseContext, i: Item) returns (ok: bool)
    requires i.Conditional? && c.Ready()
    modifies c, c.Current(), c.currentPrsBody, c.currentSpecBody
    ensures c.State() == old(c.State())
    ensures ok <==> AcceptedItem(i, old(c.Scope()))
    ensures ok ==> c.Ready() && ItemBuilt(c.Bodies(), old(c.Bodies()), i, old(c.Scope()))
    ensures ok ==> fresh(c.Footprint() - old(c.Footprint()))
    decreases i, 0
  {
    hide Block.Valid, Build, Accepted, ClausesDone, ParseContext.Settled, CondOf;
    c.Members();
    ConditionalBuilt(i, c.Scope());
    var ls, rs, ss := EnterConditional(c);
    ghost var q, r, s;
    ok, q, r, s := CheckClauses(c, i.clauses, ls, rs, ss);
    if ok {
      LeaveConditional(c, i, ls, rs, ss, q, r, s, old(c.Scope()));
    }
  }

  /** What a language makes of a conditional. */
  function CondOf(l: Language, i: Item, scope: set<string>): seq<Tree>
    requires i.Conditional?
  {
    Remaining(CondTree(Guards(i.clauses), ScopeTrees.Bodies(l, i.clauses, scope)), false)
  }

  lemma ConditionalBuilt(i: Item, scope: set<string>)
    requires i.Conditional?
    ensures forall l :: BuildItem(l, i, scope) == CondOf(l, i, scope)
  {
    hide Build;
  }

  method EnterConditional(c: ParseContext) returns (ls: Node, rs: Node, ss: Node)
    requires c.Ready()
    modifies c.Current()`items, c.currentPrsBody`items, c.currentSpecBody`items
    ensures Standing(c.Current(), ls) && Standing(c.currentPrsBody, rs) && Standing(c.currentSpecBody, ss)
    ensures fresh({ls, rs, ss}) && {ls} !! {rs} !! {ss}
    ensures ls.guards == rs.guards == ss.guards == [] && ls.clauses == rs.clauses == ss.clauses == []
    ensures c.Footprint() == old(c.Footprint()) && c.Bodies() == old(c.Bodies()) && c.Apart()
  {
    hide Block.Valid, Block.Open;
    c.Members();
    ls := OpenConditional(c.Current());
    rs := OpenConditional(c.currentPrsBody);
    ss := OpenConditional(c.currentSpecBody);
  }

  /** n is a conditional, the last node of b and still open. */
  ghost predicate Standing(b: Block, n: Node)
    reads b, b.repr
  {
    n.kind == CondKind && b in b.repr && b.Open() && Last(b) == n && n !in b.repr
  }

  method LeaveConditional(c: ParseContext, i: Item, ls: Node, rs: Node, ss: Node,
                          ghost q: set<object>, ghost r: set<object>, ghost s: set<object>, ghost scope: set<string>)
    requires i.Conditional? && c.NoShadows() && c.sequentialScopeStack != [] && c.Apart()
    requires Standing(c.Current(), ls) && Standing(c.currentPrsBody, rs) && Standing(c.currentSpecBody, ss)
    requires ClausesDone(Instances, ls, i.clauses, |i.clauses|, scope, q)
    requires ClausesDone(Rules, rs, i.clauses, |i.clauses|, scope, r)
    requires ClausesDone(Directives, ss, i.clauses, |i.clauses|, scope, s)
    requires q !! r !! s !! c.Footprint() && c !in q + r + s
    modifies c.Current(), c.currentPrsBody, c.currentSpecBody
    modifies ls`repr, ls`model, rs`repr, rs`model, ss`repr, ss`model
    ensures c.Ready() && c.Footprint() <= old(c.Footprint()) + q + r + s
    ensures c.Bodies().0 == old(c.Bodies().0) + CondOf(Instances, i, scope)
    ensures c.Bodies().1 == old(c.Bodies().1) + CondOf(Rules, i, scope)
    ensures c.Bodies().2 == old(c.Bodies().2) + CondOf(Directives, i, scope)
  {
    hide Block.Valid, Block.Open, Build, ClausesDone, Pending, Remaining;
    ClausesFinished(Instances, c.Current(), ls, i.clauses, scope, q);
    ClausesFinished(Rules, c.currentPrsBody, rs, i.clauses, scope, r);
    ClausesFinished(Directives, c.currentSpecBody, ss, i.clauses, scope, s);
    FinishAll(c, ls, q, rs, r, ss, s);
  }

  method CheckClauses(c: ParseContext, cs: seq<Clause<Item>>, ls: Node, rs: Node, ss: Node)
    returns (ok: bool, ghost q: set<object>, ghost r: set<object>, ghost s: set<object>)
    requires c.NoShadows() && c.sequentialScopeStack != [] && {ls} !! {rs} !! {ss}
    requires c.Current().items != [] && c.currentPrsBody.items != [] && c.currentSpecBody.items != []
    requires Last(c.Current()) == ls && Last(c.currentPrsBody) == rs && Last(c.currentSpecBody) == ss
    requires ls.kind == CondKind && ls.guards == [] && ls.clauses == []
    requires rs.kind == CondKind && rs.guards == [] && rs.clauses == []
    requires ss.kind == CondKind && ss.guards == [] && ss.clauses == []
    modifies c, ls, rs, ss
    ensures c.State() == old(c.State())
    ensures ok <==> forall k | 0 <= k < |cs| :: Accepted(cs[k].body, old(c.Scope()))
    ensures ok ==> fresh(q - {ls}) && fresh(r - {rs}) && fresh(s - {ss}) && q !! r !! s
    ensures ok ==> ClausesDone(Instances, ls, cs, |cs|, old(c.Scope()), q)
    ensures ok ==> ClausesDone(Rules, rs, cs, |cs|, old(c.Scope()), r)
    ensures ok ==> ClausesDone(Directives, ss, cs, |cs|, old(c.Scope()), s)
    decreases cs, 1
  {
    hide Block.Valid, Build, Accepted, ClausesDone;
    ghost var scope := c.Scope();
    q, r, s := {ls}, {rs}, {ss};
    NoClauses(Instances, ls, cs, scope);
    NoClauses(Rules, rs, cs, scope);
    NoClauses(Directives, ss, cs, scope);
    for k := 0 to |cs|
      invariant c.State() == old(c.State()) && unchanged(c.Current(), c.currentPrsBody, c.currentSpecBody)
      invariant fresh(q - {ls}) && fresh(r - {rs}) && fresh(s - {ss}) && q !! r !! s && c !in q + r + s
      invariant ClausesDone(Instances, ls, cs, k, scope, q)
      invariant ClausesDone(Rules, rs, cs, k, scope, r)
      invariant ClausesDone(Directives, ss, cs, k, scope, s)
      invariant forall j | 0 <= j < k :: Accepted(cs[j].body, scope)
    {
      ok, q, r, s := CheckGuarded(c, cs, k, ls, q, rs, r, ss, s);
      if !ok {
        return;
      }
    }
    ok := true;
  }

  lemma NoClauses(l: Language, n: Node, cs: seq<Clause<Item>>, scope: set<string>)
    requires n.kind == CondKind && n.clauses == [] && n.guards == []
    ensures ClausesDone(l, n, cs, 0, scope, {n})
  {
  }

  /** One clause, in all three conditionals: they are found at the end of the three current
      bodies, and the new clause's bodies become current while it is checked. */
  method CheckGuarded(c: ParseContext, cs: seq<Clause<Item>>, k: nat,
                      ghost m: Node, ghost q: set<object>, ghost n: Node, ghost r: set<object>, ghost o: Node, ghost s: set<object>)
    returns (ok: bool, ghost q2: set<object>, ghost r2: set<object>, ghost s2: set<object>)
    requires k < |cs| && c.NoShadows() && c.sequentialScopeStack != [] && c !in q + r + s && q !! r !! s
    requires c.Current().items != [] && c.currentPrsBody.items != [] && c.currentSpecBody.items != []
    requires Last(c.Current()) == m && Last(c.currentPrsBody) == n && Last(c.currentSpecBody) == o
    requires ClausesDone(Instances, m, cs, k, c.Scope(), q)
    requires ClausesDone(Rules, n, cs, k, c.Scope(), r)
    requires ClausesDone(Directives, o, cs, k, c.Scope(), s)
    modifies c, m, n, o
    ensures c.State() == old(c.State())
    ensures ok <==> Accepted(cs[k].body, old(c.Scope()))
    ensures ok ==> fresh(q2 - q) && fresh(r2 - r) && fresh(s2 - s) && q2 !! r2 !! s2
    ensures ok ==> ClausesDone(Instances, m, cs, k + 1, old(c.Scope()), q2)
    ensures ok ==> ClausesDone(Rules, n, cs, k + 1, old(c.Scope()), r2)
    ensures ok ==> ClausesDone(Directives, o, cs, k + 1, old(c.Scope()), s2)
    decreases cs, 0
  {
    hide Block.Valid, Build, Accepted, ClausesDone, ClauseOpen, ParseContext.Settled, ItemsBuilt, ParseContext.Bodies,
      ParseContext.NoShadows, Fine, ItemsIn;
    ghost var scope := c.Scope();
    var pr, sp, parentCond := c.currentPrsBody, c.currentSpecBody, c.inConditionalScope;
    var ls, rs, ss := Last(c.Current()), Last(pr), Last(sp);
    EnterClause(c, cs, k, q, r, s);
    assert {ls, rs, ss} <= q + r + s;
    c.Members();
    q2, r2, s2 := q, r, s;
    assert (q + r + s) !! c.Footprint();
    ok := CheckItems(c, cs[k].body);
    if ok {
      q2, r2, s2 := LeaveClause(c, cs, k, scope, ls, q, rs, r, ss, s);
    }
    c.Unwind(pr, sp, parentCond);
  }

  ghost method LeaveClause(c: ParseContext, cs: seq<Clause<Item>>, k: nat, scope: set<string>, ls: Node, q: set<object>,
                           rs: Node, r: set<object>, ss: Node, s: set<object>)
    returns (q2: set<object>, r2: set<object>, s2: set<object>)
    requires c.Ready() && {ls, rs, ss} !! c.Footprint() && (q + r + s) !! c.Footprint() && q !! r !! s
    requires ClauseOpen(Instances, ls, cs, k, scope, q) && c.Current() == ls.clauses[k]
    requires ClauseOpen(Rules, rs, cs, k, scope, r) && c.currentPrsBody == rs.clauses[k]
    requires ClauseOpen(Directives, ss, cs, k, scope, s) && c.currentSpecBody == ss.clauses[k]
    requires ItemsBuilt(c.Bodies(), ([], [], []), cs[k].body, scope)
    ensures q <= q2 <= q + c.Footprint() && r <= r2 <= r + c.Footprint() && s <= s2 <= s + c.Footprint()
    ensures q2 !! r2 !! s2 && (c !in q + r + s ==> c !in q2 + r2 + s2)
    ensures ClausesDone(Instances, ls, cs, k + 1, scope, q2)
    ensures ClausesDone(Rules, rs, cs, k + 1, scope, r2)
    ensures ClausesDone(Directives, ss, cs, k + 1, scope, s2)
  {
    ClausesFilled(c, cs, k, scope, ls, q, rs, r, ss, s);
    q2, r2, s2 := q + c.Current().repr, r + c.currentPrsBody.repr, s + c.currentSpecBody.repr;
  }

  lemma ClausesFilled(c: ParseContext, cs: seq<Clause<Item>>, k: nat, scope: set<string>, ls: Node, q: set<object>,
                      rs: Node, r: set<object>, ss: Node, s: set<object>)
    requires c.Ready() && {ls, rs, ss} !! c.Footprint()
    requires ClauseOpen(Instances, ls, cs, k, scope, q) && c.Current() == ls.clauses[k]
    requires ClauseOpen(Rules, rs, cs, k, scope, r) && c.currentPrsBody == rs.clauses[k]
    requires ClauseOpen(Directives, ss, cs, k, scope, s) && c.currentSpecBody == ss.clauses[k]
    requires ItemsBuilt(c.Bodies(), ([], [], []), cs[k].body, scope)
    ensures ClausesDone(Instances, ls, cs, k + 1, scope, q + c.Current().repr)
    ensures ClausesDone(Rules, rs, cs, k + 1, scope, r + c.currentPrsBody.repr)
    ensures ClausesDone(Directives, ss, cs, k + 1, scope, s + c.currentSpecBody.repr)
    ensures c.Apart()
  {
    hide Block.Valid, Build, ClausesDone;
    c.Members();
    ClauseFilled(Instances, ls, cs, k, scope, q);
    ClauseFilled(Rules, rs, cs, k, scope, r);
    ClauseFilled(Directives, ss, cs, k, scope, s);
  }

  function Last(b: Block): Node
    requires b.items != []
    reads b
  {
    b.items[|b.items| - 1]
  }

  method EnterClause(c: ParseContext, cs: seq<Clause<Item>>, k: nat, ghost q: set<object>, ghost r: set<object>, ghost s: set<object>)
    requires k < |cs| && c.NoShadows() && c.sequentialScopeStack != [] && c !in q + r + s && q !! r !! s
    requires c.Current().items != [] && c.currentPrsBody.items != [] && c.currentSpecBody.items != []
    requires ClausesDone(Instances, Last(c.Current()), cs, k, c.Scope(), q)
    requires ClausesDone(Rules, Last(c.currentPrsBody), cs, k, c.Scope(), r)
    requires ClausesDone(Directives, Last(c.currentSpecBody), cs, k, c.Scope(), s)
    modifies c`sequentialScopeStack, c`inConditionalScope, c`currentPrsBody, c`currentSpecBody
    modifies Last(c.Current()), Last(c.currentPrsBody), Last(c.currentSpecBody)
    ensures var ls, rs, ss := old(Last(c.Current())), old(Last(c.currentPrsBody)), old(Last(c.currentSpecBody));
      && ClauseOpen(Instances, ls, cs, k, old(c.Scope()), q) && |ls.clauses| == k + 1
      && ClauseOpen(Rules, rs, cs, k, old(c.Scope()), r) && |rs.clauses| == k + 1
      && ClauseOpen(Directives, ss, cs, k, old(c.Scope()), s) && |ss.clauses| == k + 1
      && ls in q && rs in r && ss in s
      && c.sequentialScopeStack == old(c.sequentialScopeStack) + [ls.clauses[k]]
      && c.currentPrsBody == rs.clauses[k] && c.currentSpecBody == ss.clauses[k]
    ensures c.Ready() && c.Bodies() == ([], [], []) && fresh(c.Footprint())
  {
    hide Block.Valid, Build, ClauseDone;
    ghost var scope := c.Scope();
    var ls, rs, ss := Last(c.Current()), Last(c.currentPrsBody), Last(c.currentSpecBody);
    OpenClause(ls, cs, k, Instances, scope, q);
    OpenClause(rs, cs, k, Rules, scope, r);
    OpenClause(ss, cs, k, Directives, scope, s);
    c.sequentialScopeStack := c.sequentialScopeStack + [ls.clauses[k]];
    c.inConditionalScope := true;
    c.currentPrsBody, c.currentSpecBody := rs.clauses[k], ss.clauses[k];
  }

  /** The whole walk, over a definition in which certain names are known.  The source is
      refused exactly if it is in error; otherwise the three trees are built, the frames have
      put everything else back, and instances and directives unroll to their projection of the
      source in every world.  The tree of rules is as written if and only if none of them was
      lost, and unrolls to its projection in exactly the worlds in which none that comes up
      was lost. */
  method CheckBuild(items: seq<Item>, names: set<string>) returns (ok: bool, c: ParseContext)
    ensures ok <==> Accepted(items, names)
    ensures ok <==> forall o | o in ItemsIn(items, []) :: Fine(o, names)
    ensures ok ==> c.Ready() && c.loopVarStack == [] && !c.inConditionalScope && |c.sequentialScopeStack| == 1
    ensures ok ==> c.Current().model == Build(Instances, items, names)
    ensures ok ==> c.currentPrsBody.model == Build(Rules, items, names)
    ensures ok ==> c.currentSpecBody.model == Build(Directives, items, names)
    ensures ok ==> forall w, env :: Unroll(c.Current().model, w, env) == ItemsMean(Instances, items, w, env)
    ensures ok ==> forall w, env :: Unroll(c.currentSpecBody.model, w, env) == ItemsMean(Directives, items, w, env)
    ensures ok ==> (c.currentPrsBody.model == IdealItems(items) <==> Kept(items, names))
    ensures ok ==>
      forall w, env ::
        Unroll(c.currentPrsBody.model, w, env) == ItemsMean(Rules, items, w, env) <==> KeptIn(items, names, w, env)
  {
    hide Block.Valid, Build, Accepted, Kept, KeptIn, IdealItems, Unroll, ItemsMean, ItemsIn, Fine;
    RulesTreeExactly(items, names);
    AcceptedExactly(items, names, []);
    assert names + Named([]) == names;
    c := new ParseContext(names);
    assert c.Scope() == names;
    ok := CheckItems(c, items);
    forall l: Language, w: World, env: Env
      ensures Unroll(Build(l, items, names), w, env) == ItemsMean(l, items, w, env)
              <==> (l.Rules? ==> KeptIn(items, names, w, env))
    {
      UnrollsToProjection(l, items, names, w, env);
    }
  }
}
