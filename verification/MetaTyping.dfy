/** Exactly which meta-language expressions check, told from the source: by the types that the
    language assigns, by how the operators are spelled, and by what the parts without parameters
    evaluate to. */
module MetaTyping {
  import opened MetaExpr
  import opened Options

  /** Passing gives a term; otherwise there is no result, an exception, or a failed assertion. */
  datatype Outcome = Passes | NoResult | Throws | Aborts

  function OutcomeOf(c: Checked): Outcome {
    match c
    case Typed(_) => Passes
    case Null => NoResult
    case Thrown => Throws
    case Aborted => Aborts
  }

  /** The second character of an operator, if there is one. */
  function Second(op: Token): char {
    if |op| > 1 then op[1] else '\0'
  }

  // ---- one operator ----

  /** x is what the operand evaluates to. */
  function PrefixOutcome(op: Token, t: Type, closed: bool, x: Option<Value>): Outcome {
    if op[0] !in {'-', '!', '~'} then Aborts
    else if (op[0] == '-' && t == PBool) || (op[0] == '!' && t != PInt) || (op[0] == '~' && t == PReal) then NoResult
    else if closed && x == None then Throws
    else Passes
  }

  /** x is what the whole evaluates to.  A mixed operation is not folded. */
  function ArithOutcome(op: Token, a: Type, b: Type, closed: bool, x: Option<Value>): Outcome {
    if a == PBool && b == PBool then
      if op[0] !in {'&', '|', '^'} then NoResult
      else if op[0] != '^' && Second(op) != '\0' then Aborts
      else if closed && x == None then Throws
      else Passes
    else if a == PBool || b == PBool then NoResult
    else if a == PInt && b == PInt then
      if Second(op) in {'&', '|'} then NoResult
      else if op[0] !in {'+', '-', '*', '/', '%', '<', '>', '&', '|', '^'} then Aborts
      else if closed && x == None then NoResult
      else Passes
    else if op[0] !in {'+', '-', '*', '/', '%'} then Aborts
    else if a == b && closed && x == None then NoResult
    else Passes
  }

  function RelationalOutcome(op: Token, a: Type, b: Type, closed: bool, x: Option<Value>): Outcome {
    if a != b then NoResult
    else if a == PBool && op !in {"&&", "||", "!=", "=="} then NoResult
    else if a != PBool && op !in {"==", "!=", "<", ">", "<=", ">="} then Aborts
    else if closed && x == None then Throws
    else Passes
  }

  /** An operation on ints is not folded. */
  function LogicalOutcome(op: Token, a: Type, b: Type, closed: bool, x: Option<Value>): Outcome {
    if a == PBool && b == PBool then
      if op !in {"&&", "||", "!=", "=="} then NoResult
      else if closed && x == None then Throws
      else Passes
    else if a == PInt && b == PInt then
      if op[0] in {'&', '|'} then Passes else if op[0] == '!' then Aborts else NoResult
    else NoResult
  }

  /** An exception or a failed assertion comes first, in the left operand before the right. */
  function FirstOf(l: Outcome, r: Outcome): Outcome {
    if l.Throws? || l.Aborts? then l
    else if r.Throws? || r.Aborts? then r
    else if l.NoResult? || r.NoResult? then NoResult
    else Passes
  }

  /** What checking an expression comes to. */
  function SourceOutcome(s: Source): (o: Outcome)
    ensures o == Passes ==> Assigned(s).Some?
  {
    match s
    case Literal(_) => Passes
    case Param(_, _) => Passes
    case Prefix(op, e) =>
      if SourceOutcome(e) != Passes then SourceOutcome(e)
      else PrefixOutcome(op, Assigned(e).value, Closed(e), Evaluated(e, Anywhere()))
    case Arith(op, l, r) =>
      if FirstOf(SourceOutcome(l), SourceOutcome(r)) != Passes then FirstOf(SourceOutcome(l), SourceOutcome(r))
      else ArithOutcome(op, Assigned(l).value, Assigned(r).value, Closed(s), Evaluated(s, Anywhere()))
    case Relational(op, l, r) =>
      if FirstOf(SourceOutcome(l), SourceOutcome(r)) != Passes then FirstOf(SourceOutcome(l), SourceOutcome(r))
      else RelationalOutcome(op, Assigned(l).value, Assigned(r).value, Closed(s), Evaluated(s, Anywhere()))
    case Logical(op, l, r) =>
      if FirstOf(SourceOutcome(l), SourceOutcome(r)) != Passes then FirstOf(SourceOutcome(l), SourceOutcome(r))
      else LogicalOutcome(op, Assigned(l).value, Assigned(r).value, Closed(s), Evaluated(s, Anywhere()))
  }

  // ---- checking one operator ----

  lemma FoldOutcome(t: Term, thrown: Checked)
    requires !thrown.Typed?
    ensures OutcomeOf(Fold(t, thrown))
         == if Static(t) && Resolve(t, Anywhere()) == None then OutcomeOf(thrown) else Passes
  {
  }

  lemma CheckPrefixOutcome(op: Token, t: Term)
    ensures OutcomeOf(CheckPrefix(op[0], Typed(t))) == PrefixOutcome(op, TypeOf(t), Static(t), Resolve(t, Anywhere()))
  {
    hide Resolve, Static, Fold;
    ResolveTyped(t, Anywhere());
    var u := if op[0] == '-' then (if TypeOf(t) == PInt then IntUnary('-', t) else RealNegation(t))
             else if TypeOf(t) == PBool then BoolNegation(t) else IntUnary('~', t);
    ResolveUnary(u, Anywhere());
    StaticUnary(u);
    FoldOutcome(u, Thrown);
  }

  lemma StaticUnary(t: Term)
    requires t.IntUnary? || t.RealNegation? || t.BoolNegation? || t.ToReal?
    ensures Static(t) == Static(t.arg)
  {
  }

  lemma StaticBinary(t: Term)
    requires IsBinary(t)
    ensures Static(t) == (Static(t.left) && Static(t.right))
  {
  }

  lemma IntArithResolves(op: Token, a: Term, b: Term, w: World)
    requires TypeOf(a) == PInt == TypeOf(b)
    ensures Resolve(IntArith(op[0], a, b), w) == ArithExpected(op, Resolve(a, w), Resolve(b, w))
  {
    hide Resolve, IntOp;
    ResolveTyped(a, w);
    ResolveTyped(b, w);
    ResolveBinary(IntArith(op[0], a, b), w);
  }

  lemma RealArithResolves(op: Token, a: Term, b: Term, w: World)
    requires TypeOf(a) == PReal == TypeOf(b)
    ensures Resolve(RealArith(op[0], a, b), w) == ArithExpected(op, Resolve(a, w), Resolve(b, w))
  {
    hide Resolve, RealOp, GuardedRealOp, Smallest;
    ResolveTyped(a, w);
    ResolveTyped(b, w);
    ResolveBinary(RealArith(op[0], a, b), w);
    RealGuard(op[0], Resolve(a, w), Resolve(b, w));
  }

  lemma BoolArithResolves(op: Token, a: Term, b: Term, w: World)
    requires TypeOf(a) == PBool == TypeOf(b) && op[0] in {'&', '|', '^'}
    ensures Resolve(BoolLogic(BoolSpelling(op[0]), a, b), w) == ArithExpected(op, Resolve(a, w), Resolve(b, w))
  {
    hide Resolve, IntOp, RealOp;
    ResolveTyped(a, w);
    ResolveTyped(b, w);
    ResolveBinary(BoolLogic(BoolSpelling(op[0]), a, b), w);
  }

  function BoolSpelling(op: char): string {
    if op == '&' then "&&" else if op == '|' then "||" else "!="
  }

  lemma CheckArithOutcome(op: Token, a: Term, b: Term)
    ensures OutcomeOf(CheckArith(op, a, b))
         == ArithOutcome(op, TypeOf(a), TypeOf(b), Static(a) && Static(b),
                         ArithExpected(op, Resolve(a, Anywhere()), Resolve(b, Anywhere())))
  {
    hide Resolve, Static, Fold, IntOp, RealOp, ArithExpected;
    match (TypeOf(a), TypeOf(b))
    case (PInt, PInt) =>
      IntArithResolves(op, a, b, Anywhere());
      StaticBinary(IntArith(op[0], a, b));
      FoldOutcome(IntArith(op[0], a, b), Null);
    case (PReal, PReal) =>
      RealArithResolves(op, a, b, Anywhere());
      StaticBinary(RealArith(op[0], a, b));
      FoldOutcome(RealArith(op[0], a, b), Null);
    case (PBool, PBool) =>
      if op[0] in {'&', '|', '^'} {
        BoolArithResolves(op, a, b, Anywhere());
        StaticBinary(BoolLogic(BoolSpelling(op[0]), a, b));
        FoldOutcome(BoolLogic(BoolSpelling(op[0]), a, b), Thrown);
      }
    case _ =>
  }

  lemma RelationResolves(op: Token, a: Term, b: Term, w: World)
    requires TypeOf(a) == TypeOf(b)
    ensures Resolve(Comparison(op, a, b), w) == RelationalExpected(op, Resolve(a, w), Resolve(b, w))
  {
    hide Resolve, IntCompare, RealCompare, BoolOp;
    ResolveTyped(a, w);
    ResolveTyped(b, w);
    ResolveBinary(Comparison(op, a, b), w);
  }

  function Comparison(op: Token, a: Term, b: Term): (t: Term)
    ensures IsBinary(t) && t.left == a && t.right == b
  {
    match TypeOf(a)
    case PInt => IntRelation(op, a, b)
    case PReal => RealRelation(op, a, b)
    case PBool => BoolLogic(op, a, b)
  }

  lemma CheckRelationalOutcome(op: Token, a: Term, b: Term)
    ensures OutcomeOf(CheckRelational(op, a, b))
         == RelationalOutcome(op, TypeOf(a), TypeOf(b), Static(a) && Static(b),
                              RelationalExpected(op, Resolve(a, Anywhere()), Resolve(b, Anywhere())))
  {
    hide Resolve, Static, Fold, RelationalExpected;
    if TypeOf(a) == TypeOf(b) {
      RelationResolves(op, a, b, Anywhere());
      StaticBinary(Comparison(op, a, b));
      FoldOutcome(Comparison(op, a, b), Thrown);
    }
  }

  lemma CheckLogicalOutcome(op: Token, a: Term, b: Term)
    ensures OutcomeOf(CheckLogical(op, a, b))
         == LogicalOutcome(op, TypeOf(a), TypeOf(b), Static(a) && Static(b),
                           LogicalExpected(op, Resolve(a, Anywhere()), Resolve(b, Anywhere())))
  {
    hide Resolve, Static, Fold, IntOp, BoolOp;
    if TypeOf(a) == PBool == TypeOf(b) {
      ResolveTyped(a, Anywhere());
      ResolveTyped(b, Anywhere());
      ResolveBinary(BoolLogic(op, a, b), Anywhere());
      StaticBinary(BoolLogic(op, a, b));
      FoldOutcome(BoolLogic(op, a, b), Thrown);
    }
  }

  // ---- checking an expression ----

  /** What is known of an operand that passes. */
  lemma OperandKnown(s: Source)
    requires Check(s).Typed?
    ensures Assigned(s) == Some(TypeOf(Check(s).term)) && Closed(s) == Static(Check(s).term)
    ensures Evaluated(s, Anywhere()) == Resolve(Check(s).term, Anywhere())
  {
    CheckedAsAssigned(s);
    ClosedIsStatic(s);
    CheckEvaluates(s, Anywhere());
  }

  /** Checking comes to what the source says it does, for every expression. */
  lemma {:induction false} OutcomeExactly(s: Source)
    ensures OutcomeOf(Check(s)) == SourceOutcome(s)
  {
    hide Resolve, Static, TypeOf, Assigned, Closed, CheckPrefix, CheckArith, CheckRelational, CheckLogical,
      PrefixOutcome, ArithOutcome, RelationalOutcome, LogicalOutcome, ArithExpected, RelationalExpected, LogicalExpected;
    match s
    case Literal(_) =>
    case Param(_, _) =>
    case Prefix(op, e) =>
      OutcomeExactly(e);
      NotPassed(op[0], Check(e));
      if Check(e).Typed? {
        OperandKnown(e);
        CheckPrefixOutcome(op, Check(e).term);
      }
    case Arith(op, l, r) =>
      OutcomeExactly(l);
      OutcomeExactly(r);
      if Check(l).Typed? && Check(r).Typed? {
        OperandKnown(l);
        OperandKnown(r);
        ClosedBinary(s, l, r);
        CheckArithOutcome(op, Check(l).term, Check(r).term);
      }
    case Relational(op, l, r) =>
      OutcomeExactly(l);
      OutcomeExactly(r);
      if Check(l).Typed? && Check(r).Typed? {
        OperandKnown(l);
        OperandKnown(r);
        ClosedBinary(s, l, r);
        CheckRelationalOutcome(op, Check(l).term, Check(r).term);
      }
    case Logical(op, l, r) =>
      OutcomeExactly(l);
      OutcomeExactly(r);
      if Check(l).Typed? && Check(r).Typed? {
        OperandKnown(l);
        OperandKnown(r);
        ClosedBinary(s, l, r);
        CheckLogicalOutcome(op, Check(l).term, Check(r).term);
      }
  }

  lemma NotPassed(ch: char, e: Checked)
    ensures !e.Typed? ==> CheckPrefix(ch, e) == e
  {
  }

  lemma ClosedBinary(s: Source, l: Source, r: Source)
    requires match s case Arith(_, a, b) => a == l && b == r
                     case Relational(_, a, b) => a == l && b == r
                     case Logical(_, a, b) => a == l && b == r
                     case _ => false
    ensures Closed(s) == (Closed(l) && Closed(r))
  {
  }

  // ---- exactly which expressions check ----

  /** No operator has a second character that is refused although its first one is taken. */
  predicate Spelled(s: Source) {
    match s
    case Literal(_) => true
    case Param(_, _) => true
    case Prefix(_, e) => Spelled(e)
    case Arith(op, l, r) =>
      && Spelled(l) && Spelled(r)
      && (Assigned(l) == Some(PInt) == Assigned(r) ==> Second(op) !in {'&', '|'})
      && (Assigned(l) == Some(PBool) == Assigned(r) && op[0] in {'&', '|'} ==> Second(op) == '\0')
    case Relational(_, l, r) => Spelled(l) && Spelled(r)
    case Logical(_, l, r) => Spelled(l) && Spelled(r)
  }

  /** An operation without parameters is folded, unless it mixes an int and a real, or is a
      logical one on ints. */
  predicate Folded(s: Source) {
    Closed(s) && match s
    case Literal(_) => false
    case Param(_, _) => false
    case Prefix(_, _) => true
    case Arith(_, l, r) => Assigned(l) == Assigned(r)
    case Relational(_, _, _) => true
    case Logical(_, l, _) => Assigned(l) == Some(PBool)
  }

  /** Every part that is folded has a value. */
  predicate FoldsEvaluate(s: Source) {
    && (Folded(s) ==> Evaluated(s, Anywhere()).Some?)
    && match s
       case Literal(_) => true
       case Param(_, _) => true
       case Prefix(_, e) => FoldsEvaluate(e)
       case Arith(_, l, r) => FoldsEvaluate(l) && FoldsEvaluate(r)
       case Relational(_, l, r) => FoldsEvaluate(l) && FoldsEvaluate(r)
       case Logical(_, l, r) => FoldsEvaluate(l) && FoldsEvaluate(r)
  }

  /** Exactly which expressions check. */
  lemma ChecksExactly(s: Source)
    ensures Check(s).Typed? <==> Assigned(s).Some? && Spelled(s) && FoldsEvaluate(s)
  {
    OutcomeExactly(s);
    PassesExactly(s);
  }

  lemma {:induction false} PassesExactly(s: Source)
    ensures SourceOutcome(s) == Passes <==> Assigned(s).Some? && Spelled(s) && FoldsEvaluate(s)
  {
    hide Evaluated, Closed;
    match s
    case Literal(_) =>
    case Param(_, _) =>
    case Prefix(op, e) =>
      PassesExactly(e);
      if SourceOutcome(e) == Passes && Assigned(s).Some? {
        PrefixValue(op, e);
      }
    case Arith(op, l, r) => PassesExactly(l); PassesExactly(r);
    case Relational(op, l, r) => PassesExactly(l); PassesExactly(r);
    case Logical(op, l, r) => PassesExactly(l); PassesExactly(r);
  }

  /** A prefix operator of the right type has a value where its operand has. */
  lemma PrefixValue(op: Token, e: Source)
    requires SourceOutcome(e) == Passes && Assigned(Prefix(op, e)).Some?
    ensures Closed(Prefix(op, e)) == Closed(e)
    ensures Evaluated(Prefix(op, e), Anywhere()).Some? <==> Evaluated(e, Anywhere()).Some?
  {
    OutcomeExactly(e);
    OperandKnown(e);
    ResolveTyped(Check(e).term, Anywhere());
  }

  /** Exactly which expressions come out as constants, and as which. */
  lemma ConstantExactly(s: Source, w: World)
    requires Check(s).Typed?
    ensures Check(s).term.Const? <==> s.Literal? || Folded(s)
    ensures Check(s).term.Const? ==> Evaluated(s, w) == Some(Check(s).term.value)
  {
    CheckEvaluates(s, w);
    FoldedConstant(s);
    ResolveLeaf(Check(s).term, w);
  }

  lemma FoldedConstant(s: Source)
    requires Check(s).Typed?
    ensures Check(s).term.Const? <==> s.Literal? || Folded(s)
  {
    hide Resolve, Evaluated, Assigned, Closed, Static, CheckArith, CheckRelational, CheckLogical, CheckPrefix, Fold;
    match s
    case Literal(_) =>
    case Param(_, _) =>
    case Prefix(op, e) =>
      NotPassed(op[0], Check(e));
      OperandKnown(e);
      ClosedPrefix(op, e);
      PrefixConstant(op, Check(e).term);
    case Arith(op, l, r) =>
      OperandKnown(l);
      OperandKnown(r);
      ClosedBinary(s, l, r);
      ArithConstant(op, Check(l).term, Check(r).term);
    case Relational(op, l, r) =>
      OperandKnown(l);
      OperandKnown(r);
      ClosedBinary(s, l, r);
      RelationalConstant(op, Check(l).term, Check(r).term);
    case Logical(op, l, r) =>
      OperandKnown(l);
      OperandKnown(r);
      ClosedBinary(s, l, r);
      LogicalConstant(op, Check(l).term, Check(r).term);
  }

  lemma ClosedPrefix(op: Token, e: Source)
    ensures Closed(Prefix(op, e)) == Closed(e)
  {
  }

  lemma PrefixConstant(op: Token, t: Term)
    requires CheckPrefix(op[0], Typed(t)).Typed?
    ensures CheckPrefix(op[0], Typed(t)).term.Const? <==> Static(t)
  {
    hide Resolve;
  }

  lemma ArithConstant(op: Token, a: Term, b: Term)
    requires CheckArith(op, a, b).Typed?
    ensures CheckArith(op, a, b).term.Const? <==> Static(a) && Static(b) && TypeOf(a) == TypeOf(b)
  {
    hide Resolve, Static;
    match (TypeOf(a), TypeOf(b))
    case (PInt, PInt) => StaticBinary(IntArith(op[0], a, b));
    case (PReal, PReal) => StaticBinary(RealArith(op[0], a, b));
    case (PBool, PBool) => StaticBinary(BoolLogic(BoolSpelling(op[0]), a, b));
    case _ =>
  }

  lemma RelationalConstant(op: Token, a: Term, b: Term)
    requires CheckRelational(op, a, b).Typed?
    ensures CheckRelational(op, a, b).term.Const? <==> Static(a) && Static(b)
  {
    hide Resolve, Static;
    StaticBinary(Comparison(op, a, b));
  }

  lemma LogicalConstant(op: Token, a: Term, b: Term)
    requires CheckLogical(op, a, b).Typed?
    ensures CheckLogical(op, a, b).term.Const? <==> Static(a) && Static(b) && TypeOf(a) == PBool
  {
    hide Resolve, Static;
    StaticBinary(BoolLogic(op, a, b));
  }
}
