/** Which sources are refused, told by what stands where in them. */
module ScopeErrors {
  import opened LoopBounds
  import opened ScopeTrees

  // ---- items ----

  /** An item at any depth, with the variables of the loops around it, outermost first. */
  datatype ItemSpot = ItemSpot(around: seq<string>, item: Item)

  function ItemsIn(items: seq<Item>, around: seq<string>): seq<ItemSpot>
    decreases items, 0
  {
    if items == [] then [] else InItem(items[0], around) + ItemsIn(items[1..], around)
  }

  function InItem(i: Item, around: seq<string>): seq<ItemSpot>
    decreases i, 0
  {
    [ItemSpot(around, i)]
    + match i
      case Loop(ind, _, body) => ItemsIn(body, around + [ind])
      case Conditional(cs) => InClauses(cs, around)
      case _ => []
  }

  function InClauses(cs: seq<Clause<Item>>, around: seq<string>): seq<ItemSpot>
    decreases cs, 0
  {
    if cs == [] then [] else ItemsIn(cs[0].body, around) + InClauses(cs[1..], around)
  }

  /** Nothing is wrong with an item itself. */
  predicate Fine(o: ItemSpot, scope: set<string>) {
    match o.item
    case Instance(_, good) => good
    case PrsBody(rules) => !Escapes(rules, scope + Named(o.around))
    case SpecBody(ds) => forall k | 0 <= k < |ds| :: ds[k].good
    case Loop(ind, bounds, _) => Sound(LoopSpot(o.around, ind, bounds), scope)
    case Conditional(_) => true
  }

  /** Exactly which sources are accepted: every item at any depth is fine.  For a loop that
      means that its bounds are in order, and that its name is neither in scope nor that of a
      loop around it. */
  lemma {:induction false} AcceptedExactly(items: seq<Item>, scope: set<string>, around: seq<string>)
    ensures Accepted(items, scope + Named(around)) <==> forall o | o in ItemsIn(items, around) :: Fine(o, scope)
    decreases items, 0
  {
    if items != [] {
      AcceptedItemExactly(items[0], scope, around);
      AcceptedExactly(items[1..], scope, around);
      assert items == [items[0]] + items[1..];
    }
  }

  lemma {:induction false} AcceptedItemExactly(i: Item, scope: set<string>, around: seq<string>)
    ensures AcceptedItem(i, scope + Named(around)) <==> forall o | o in InItem(i, around) :: Fine(o, scope)
    decreases i, 0
  {
    var here := ItemSpot(around, i);
    match i
    case Loop(ind, bounds, body) =>
      AcceptedExactly(body, scope, around + [ind]);
      assert scope + Named(around) + {ind} == scope + Named(around + [ind]);
      assert Fine(here, scope) <==> !OutOfOrder(bounds) && ind !in scope + Named(around);
      FineFirst(here, ItemsIn(body, around + [ind]), scope);
    case Conditional(cs) =>
      ClausesExactly(cs, scope, around);
      FineFirst(here, InClauses(cs, around), scope);
    case _ => FineFirst(here, [], scope);
  }

  lemma FineFirst(here: ItemSpot, rest: seq<ItemSpot>, scope: set<string>)
    ensures (forall o | o in [here] + rest :: Fine(o, scope)) <==> Fine(here, scope) && forall o | o in rest :: Fine(o, scope)
  {
    assert here in [here] + rest;
  }

  lemma {:induction false} ClausesExactly(cs: seq<Clause<Item>>, scope: set<string>, around: seq<string>)
    ensures (forall k | 0 <= k < |cs| :: Accepted(cs[k].body, scope + Named(around)))
            <==> forall o | o in InClauses(cs, around) :: Fine(o, scope)
    decreases cs, 0
  {
    if cs != [] {
      AcceptedExactly(cs[0].body, scope, around);
      ClausesExactly(cs[1..], scope, around);
      assert forall k | 1 <= k < |cs| :: cs[k] == cs[1..][k - 1];
      assert forall k | 0 <= k < |cs[1..]| :: cs[1..][k] == cs[k + 1];
    }
  }

  // ---- rules ----

  /** A simple rule that is not in a conditional, with the loops around it. */
  datatype RuleSpot = RuleSpot(loops: seq<LoopSpot>, text: string, good: bool)

  function RulesIn(rs: seq<Rule>, loops: seq<LoopSpot>, around: seq<string>): seq<RuleSpot>
    decreases rs, 0
  {
    if rs == [] then [] else InRule(rs[0], loops, around) + RulesIn(rs[1..], loops, around)
  }

  function InRule(r: Rule, loops: seq<LoopSpot>, around: seq<string>): seq<RuleSpot>
    decreases r, 0
  {
    match r
    case Simple(text, good) => [RuleSpot(loops, text, good)]
    case RuleLoop(ind, b, rules) => RulesIn(rules, loops + [LoopSpot(around, ind, b)], around + [ind])
    case RuleConditional(_) => []
    case Nest(rules) => RulesIn(rules, loops, around)
    case Subcircuit(_, rules) => RulesIn(rules, loops, around)
  }

  predicate AllSound(loops: seq<LoopSpot>, scope: set<string>) {
    forall k | 0 <= k < |loops| :: Sound(loops[k], scope)
  }

  predicate Wrong(o: RuleSpot, scope: set<string>) {
    !o.good && AllSound(o.loops, scope)
  }

  /** Exactly when an error in rules is passed on: some rule in error is in no conditional, and
      all loops around it have their bounds in order and a name of their own. */
  lemma {:induction false} EscapesExactly(rs: seq<Rule>, scope: set<string>, loops: seq<LoopSpot>, around: seq<string>)
    ensures AllSound(loops, scope) && Escapes(rs, scope + Named(around))
            <==> exists o | o in RulesIn(rs, loops, around) :: Wrong(o, scope)
    decreases rs, 0
  {
    if rs != [] {
      EscapesSplit(rs, scope + Named(around));
      EscapesRuleExactly(rs[0], scope, loops, around);
      EscapesExactly(rs[1..], scope, loops, around);
      var first, rest := InRule(rs[0], loops, around), RulesIn(rs[1..], loops, around);
      assert forall o :: o in RulesIn(rs, loops, around) <==> o in first || o in rest;
    }
  }

  lemma {:induction false} EscapesRuleExactly(r: Rule, scope: set<string>, loops: seq<LoopSpot>, around: seq<string>)
    ensures AllSound(loops, scope) && EscapesRule(r, scope + Named(around))
            <==> exists o | o in InRule(r, loops, around) :: Wrong(o, scope)
    decreases r, 0
  {
    match r
    case Simple(text, good) =>
      var o := RuleSpot(loops, text, good);
      assert InRule(r, loops, around) == [o] && (o in [o]);
    case RuleLoop(ind, b, rules) =>
      var here := LoopSpot(around, ind, b);
      EscapesExactly(rules, scope, loops + [here], around + [ind]);
      assert scope + Named(around) + {ind} == scope + Named(around + [ind]);
      assert Skipped(r, scope + Named(around)) <==> !Sound(here, scope);
      assert AllSound(loops + [here], scope) <==> AllSound(loops, scope) && Sound(here, scope) by {
        assert forall k | 0 <= k < |loops| :: (loops + [here])[k] == loops[k];
        assert (loops + [here])[|loops|] == here;
      }
    case RuleConditional(_) =>
    case Nest(rules) => EscapesExactly(rules, scope, loops, around);
    case Subcircuit(_, rules) => EscapesExactly(rules, scope, loops, around);
  }
}
