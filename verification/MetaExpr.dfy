/** Checking of meta-language expressions: operands are typed, operators are resolved, and
    what is constant is folded. */
module MetaExpr {
  import opened BitFields
  import opened Options

  datatype Type = PInt | PReal | PBool
  datatype Value = IntV(i: int) | RealV(r: real) | BoolV(b: bool)

  /** An operator as written; never empty. */
  type Token = s: string | |s| > 0 witness "+"

  datatype Source =
    | Literal(value: Value)
    | Param(name: string, ptype: Type)
    | Prefix(op: Token, arg: Source)
    | Arith(op: Token, left: Source, right: Source)
    | Relational(op: Token, left: Source, right: Source)
    | Logical(op: Token, left: Source, right: Source)

  datatype Term =
    | Const(value: Value)
    | Var(name: string, vtype: Type)
    | IntUnary(op: char, arg: Term)
    | RealNegation(arg: Term)
    | BoolNegation(arg: Term)
    | IntArith(op: char, left: Term, right: Term)
    | RealArith(op: char, left: Term, right: Term)
    | ToReal(arg: Term)
    | IntRelation(rel: string, left: Term, right: Term)
    | RealRelation(rel: string, left: Term, right: Term)
    | BoolLogic(rel: string, left: Term, right: Term)

  /** The values of parameters. */
  datatype World = World(ints: string -> int, reals: string -> real, bools: string -> bool)

  function ParamValue(name: string, t: Type, w: World): Value {
    match t
    case PInt => IntV(w.ints(name))
    case PReal => RealV(w.reals(name))
    case PBool => BoolV(w.bools(name))
  }

  function ValueType(v: Value): Type {
    match v
    case IntV(_) => PInt
    case RealV(_) => PReal
    case BoolV(_) => PBool
  }

  // ---- arithmetic ----

  /** Division rounds toward zero. */
  function Quotient(a: int, b: int): int
    requires b != 0
  {
    if (a >= 0) == (b >= 0) then Abs(a) / Abs(b) else -(Abs(a) / Abs(b))
  }

  function Remainder(a: int, b: int): int
    requires b != 0
  {
    a - b * Quotient(a, b)
  }

  function Abs(a: int): nat {
    if a < 0 then -a else a
  }

  function Complement(a: int): int {
    -1 - a
  }

  function BitOr(a: int, b: int): int {
    Complement(BitAnd(Complement(a), Complement(b)))
  }

  /** None for a zero divisor, and for a shift that is not defined. */
  function IntOp(op: char, a: int, b: int): Option<int> {
    match op
    case '+' => Some(a + b)
    case '-' => Some(a - b)
    case '*' => Some(a * b)
    case '/' => if b == 0 then None else Some(Quotient(a, b))
    case '%' => if b == 0 then None else Some(Remainder(a, b))
    case '<' => if 0 <= b < WORD then Some(a * Pow2(b)) else None
    case '>' => if 0 <= b < WORD then Some(a / Pow2(b)) else None
    case '&' => Some(BitAnd(a, b))
    case '|' => Some(BitOr(a, b))
    case '^' => Some(BitOr(a, b) - BitAnd(a, b))
    case _ => None
  }

  function Truncate(r: real): real {
    if r >= 0.0 then r.Floor as real else -((-r).Floor as real)
  }

  /** None for a zero divisor. */
  function RealOp(op: char, a: real, b: real): Option<real> {
    match op
    case '+' => Some(a + b)
    case '-' => Some(a - b)
    case '*' => Some(a * b)
    case '/' => if b == 0.0 then None else Some(a / b)
    case '%' => if b == 0.0 then None else Some(a - b * Truncate(a / b))
    case _ => None
  }

  /** The smallest positive normalized single-precision number. */
  function Smallest(): (r: real)
    ensures r > 0.0
  {
    1.0 / (Pow2(126) as real)
  }

  /** As it is computed: a divisor below the smallest positive number, hence any negative
      one, is taken for zero. */
  function GuardedRealOp(op: char, a: real, b: real): Option<real> {
    if (op == '/' || op == '%') && b < Smallest() then None else RealOp(op, a, b)
  }

  predicate IntOperator(op: char) {
    op in {'+', '-', '*', '/', '%', '<', '>', '&', '|', '^'}
  }

  predicate RealOperator(op: char) {
    op in {'+', '-', '*', '/', '%'}
  }

  predicate RelationalOperator(op: string) {
    op in {"==", "!=", "<", ">", "<=", ">="}
  }

  predicate LogicalOperator(op: string) {
    op in {"&&", "||", "!=", "=="}
  }

  function IntCompare(op: string, a: int, b: int): bool {
    if op == "==" then a == b
    else if op == "!=" then a != b
    else if op == "<" then a < b
    else if op == ">" then a > b
    else if op == "<=" then a <= b
    else a >= b
  }

  function RealCompare(op: string, a: real, b: real): bool {
    if op == "==" then a == b
    else if op == "!=" then a != b
    else if op == "<" then a < b
    else if op == ">" then a > b
    else if op == "<=" then a <= b
    else a >= b
  }

  function BoolOp(op: string, a: bool, b: bool): bool {
    if op == "&&" then a && b
    else if op == "||" then a || b
    else if op == "!=" then a != b
    else a == b
  }

  // ---- what a term resolves to ----

  function Lift(o: Option<int>): Option<Value> {
    match o case None => None case Some(i) => Some(IntV(i))
  }

  function LiftReal(o: Option<real>): Option<Value> {
    match o case None => None case Some(r) => Some(RealV(r))
  }

  /** What a node makes of its operands' values; None where resolving throws. */
  function Unary(t: Term, a: Value): Option<Value>
    requires t.IntUnary? || t.RealNegation? || t.BoolNegation? || t.ToReal?
  {
    match t
    case IntUnary(op, _) => if a.IntV? then Some(IntV(if op == '-' then -a.i else Complement(a.i))) else None
    case RealNegation(_) => if a.RealV? then Some(RealV(-a.r)) else None
    case BoolNegation(_) => if a.BoolV? then Some(BoolV(!a.b)) else None
    case ToReal(_) => if a.IntV? then Some(RealV(a.i as real)) else None
  }

  predicate IsBinary(t: Term) {
    t.IntArith? || t.RealArith? || t.IntRelation? || t.RealRelation? || t.BoolLogic?
  }

  function Binary(t: Term, a: Value, b: Value): Option<Value>
    requires IsBinary(t)
  {
    match t
    case IntArith(op, _, _) => if a.IntV? && b.IntV? then Lift(IntOp(op, a.i, b.i)) else None
    case RealArith(op, _, _) => if a.RealV? && b.RealV? then LiftReal(GuardedRealOp(op, a.r, b.r)) else None
    case IntRelation(op, _, _) => if a.IntV? && b.IntV? then Some(BoolV(IntCompare(op, a.i, b.i))) else None
    case RealRelation(op, _, _) => if a.RealV? && b.RealV? then Some(BoolV(RealCompare(op, a.r, b.r))) else None
    case BoolLogic(op, _, _) => if a.BoolV? && b.BoolV? then Some(BoolV(BoolOp(op, a.b, b.b))) else None
  }

  function Resolve(t: Term, w: World): Option<Value> {
    if t.Const? then Some(t.value)
    else if t.Var? then Some(ParamValue(t.name, t.vtype, w))
    else if IsBinary(t) then
      match (Resolve(t.left, w), Resolve(t.right, w))
      case (Some(a), Some(b)) => Binary(t, a, b)
      case _ => None
    else
      match Resolve(t.arg, w)
      case Some(a) => Unary(t, a)
      case None => None
  }

  function TypeOf(t: Term): Type {
    match t
    case Const(v) => ValueType(v)
    case Var(_, ty) => ty
    case IntUnary(_, _) => PInt
    case RealNegation(_) => PReal
    case BoolNegation(_) => PBool
    case IntArith(_, _, _) => PInt
    case RealArith(_, _, _) => PReal
    case ToReal(_) => PReal
    case IntRelation(_, _, _) => PBool
    case RealRelation(_, _, _) => PBool
    case BoolLogic(_, _, _) => PBool
  }

  predicate Static(t: Term) {
    if t.Const? then true
    else if t.Var? then false
    else if IsBinary(t) then Static(t.left) && Static(t.right)
    else Static(t.arg)
  }

  // ---- checking ----

  /** A typed term, no result, an exception that escapes, or a failed assertion. */
  datatype Checked = Typed(term: Term) | Null | Thrown | Aborted

  function Anywhere(): World {
    World(n => 0, n => 0.0, n => false)
  }

  function StaticValue(t: Term): Option<Value> {
    Resolve(t, Anywhere())
  }

  /** Folds a constant; where that throws, the caller says what becomes of it. */
  function Fold(t: Term, thrown: Checked): (c: Checked)
    ensures !thrown.Typed? && c.Typed? ==> TypeOf(c.term) == TypeOf(t)
  {
    ResolveTyped(t, Anywhere());
    if !Static(t) then Typed(t)
    else
      match StaticValue(t)
      case Some(v) => Typed(Const(v))
      case None => thrown
  }

  function Check(s: Source): Checked {
    match s
    case Literal(v) => Typed(Const(v))
    case Param(n, t) => Typed(Var(n, t))
    case Prefix(op, e) => CheckPrefix(op[0], Check(e))
    case Arith(op, l, r) => CheckOperands(s, Check(l), Check(r))
    case Relational(op, l, r) => CheckOperands(s, Check(l), Check(r))
    case Logical(op, l, r) => CheckOperands(s, Check(l), Check(r))
  }

  function CheckPrefix(ch: char, e: Checked): Checked {
    if !e.Typed? then e
    else
      var t := e.term;
      match ch
      case '-' =>
        if TypeOf(t) == PInt then Fold(IntUnary('-', t), Thrown)
        else if TypeOf(t) == PReal then Fold(RealNegation(t), Thrown)
        else Null
      case '!' =>
        if TypeOf(t) != PInt then Null
        else if Static(t) then
          match StaticValue(t)
          case Some(v) => Typed(Const(IntV(if v == IntV(0) then 1 else 0)))
          case None => Thrown
        else Typed(IntUnary('!', t))
      case '~' =>
        if TypeOf(t) == PBool then Fold(BoolNegation(t), Thrown)
        else if TypeOf(t) == PInt then Fold(IntUnary('~', t), Thrown)
        else Null
      case _ => Aborted
  }

  /** An exception or a failed assertion in the left operand comes first. */
  function CheckOperands(s: Source, lo: Checked, ro: Checked): Checked
    requires s.Arith? || s.Relational? || s.Logical?
  {
    if lo.Thrown? || lo.Aborted? then lo
    else if ro.Thrown? || ro.Aborted? then ro
    else if lo.Null? || ro.Null? then Null
    else
      match s
      case Arith(op, _, _) => CheckArith(op, lo.term, ro.term)
      case Relational(op, _, _) => CheckRelational(op, lo.term, ro.term)
      case Logical(op, _, _) => CheckLogical(op, lo.term, ro.term)
  }

  /** Mixed operands are converted but not folded; operators of bools are forgiven. */
  function CheckArith(op: Token, l: Term, r: Term): Checked {
    var ch := op[0];
    var ch2 := if |op| > 1 then op[1] else '\0';
    match (TypeOf(l), TypeOf(r))
    case (PInt, PInt) =>
      if ch2 == '&' || ch2 == '|' then Null
      else if !IntOperator(ch) then Aborted
      else Fold(IntArith(ch, l, r), Null)
    case (PReal, PReal) => if RealOperator(ch) then Fold(RealArith(ch, l, r), Null) else Aborted
    case (PInt, PReal) => if RealOperator(ch) then Typed(RealArith(ch, ToReal(l), r)) else Aborted
    case (PReal, PInt) => if RealOperator(ch) then Typed(RealArith(ch, l, ToReal(r))) else Aborted
    case (PBool, PBool) =>
      (match ch
       case '&' => if ch2 == '\0' then Fold(BoolLogic("&&", l, r), Thrown) else Aborted
       case '|' => if ch2 == '\0' then Fold(BoolLogic("||", l, r), Thrown) else Aborted
       case '^' => Fold(BoolLogic("!=", l, r), Thrown)
       case _ => Null)
    case _ => Null
  }

  function CheckRelational(op: Token, l: Term, r: Term): Checked {
    match (TypeOf(l), TypeOf(r))
    case (PInt, PInt) => if RelationalOperator(op) then Fold(IntRelation(op, l, r), Thrown) else Aborted
    case (PReal, PReal) => if RelationalOperator(op) then Fold(RealRelation(op, l, r), Thrown) else Aborted
    case (PBool, PBool) => if LogicalOperator(op) then Fold(BoolLogic(op, l, r), Thrown) else Null
    case _ => Null
  }

  /** Operators of ints are forgiven, and taken bitwise; the result is not folded. */
  function CheckLogical(op: Token, l: Term, r: Term): Checked {
    match (TypeOf(l), TypeOf(r))
    case (PBool, PBool) => if LogicalOperator(op) then Fold(BoolLogic(op, l, r), Thrown) else Null
    case (PInt, PInt) =>
      if op[0] == '&' || op[0] == '|' then Typed(IntArith(op[0], l, r))
      else if op[0] == '!' then Aborted
      else Null
    case _ => Null
  }

  // ---- what an expression means ----

  function AsReal(v: Value): real
    requires !v.BoolV?
  {
    if v.IntV? then v.i as real else v.r
  }

  /** None where a divisor is zero or a shift is not defined, and for operands of the wrong
      type.  An int and a real are computed on as reals. */
  function ArithMeaning(op: Token, a: Value, b: Value): Option<Value> {
    if a.IntV? && b.IntV? then Lift(IntOp(op[0], a.i, b.i))
    else if a.BoolV? && b.BoolV? then
      (match op[0]
       case '&' => Some(BoolV(a.b && b.b))
       case '|' => Some(BoolV(a.b || b.b))
       case '^' => Some(BoolV(a.b != b.b))
       case _ => None)
    else if a.BoolV? || b.BoolV? then None
    else LiftReal(RealOp(op[0], AsReal(a), AsReal(b)))
  }

  function RelationalMeaning(op: Token, a: Value, b: Value): Option<Value> {
    if a.IntV? && b.IntV? then Some(BoolV(IntCompare(op, a.i, b.i)))
    else if a.RealV? && b.RealV? then Some(BoolV(RealCompare(op, a.r, b.r)))
    else if a.BoolV? && b.BoolV? then Some(BoolV(BoolOp(op, a.b, b.b)))
    else None
  }

  function LogicalMeaning(op: Token, a: Value, b: Value): Option<Value> {
    if a.BoolV? && b.BoolV? then Some(BoolV(BoolOp(op, a.b, b.b)))
    else if a.IntV? && b.IntV? then Lift(IntOp(op[0], a.i, b.i))
    else None
  }

  function PrefixMeaning(op: Token, a: Value): Option<Value> {
    match (op[0], a)
    case ('-', IntV(i)) => Some(IntV(-i))
    case ('-', RealV(r)) => Some(RealV(-r))
    case ('!', IntV(i)) => Some(IntV(if i == 0 then 1 else 0))
    case ('~', IntV(i)) => Some(IntV(Complement(i)))
    case ('~', BoolV(b)) => Some(BoolV(!b))
    case _ => None
  }

  function Meaning(s: Source, w: World): Option<Value> {
    match s
    case Literal(v) => Some(v)
    case Param(n, t) => Some(ParamValue(n, t, w))
    case Prefix(op, e) =>
      (match Meaning(e, w)
       case Some(a) => PrefixMeaning(op, a)
       case None => None)
    case Arith(op, l, r) =>
      (match (Meaning(l, w), Meaning(r, w))
       case (Some(a), Some(b)) => ArithMeaning(op, a, b)
       case _ => None)
    case Relational(op, l, r) =>
      (match (Meaning(l, w), Meaning(r, w))
       case (Some(a), Some(b)) => RelationalMeaning(op, a, b)
       case _ => None)
    case Logical(op, l, r) =>
      (match (Meaning(l, w), Meaning(r, w))
       case (Some(a), Some(b)) => LogicalMeaning(op, a, b)
       case _ => None)
  }

  /** Every real divisor is zero, or not below the smallest positive number. */
  predicate DivisorsLargeEnough(s: Source, w: World) {
    match s
    case Literal(_) => true
    case Param(_, _) => true
    case Prefix(_, e) => DivisorsLargeEnough(e, w)
    case Arith(op, l, r) =>
      && DivisorsLargeEnough(l, w) && DivisorsLargeEnough(r, w)
      && (match (Meaning(l, w), Meaning(r, w))
          case (Some(a), Some(b)) => DivisorLargeEnough(op[0], a, b)
          case _ => true)
    case Relational(_, l, r) => DivisorsLargeEnough(l, w) && DivisorsLargeEnough(r, w)
    case Logical(_, l, r) => DivisorsLargeEnough(l, w) && DivisorsLargeEnough(r, w)
  }

  predicate DivisorLargeEnough(op: char, a: Value, b: Value) {
    (op == '/' || op == '%') && !a.BoolV? && !b.BoolV? && (a.RealV? || b.RealV?) ==>
      AsReal(b) == 0.0 || AsReal(b) >= Smallest()
  }

  /** No parameter occurs. */
  predicate Closed(s: Source) {
    match s
    case Literal(_) => true
    case Param(_, _) => false
    case Prefix(_, e) => Closed(e)
    case Arith(_, l, r) => Closed(l) && Closed(r)
    case Relational(_, l, r) => Closed(l) && Closed(r)
    case Logical(_, l, r) => Closed(l) && Closed(r)
  }

  // ---- checking preserves meaning ----

  /** What a checked expression resolves to: its meaning, unless some real divisor is too small. */
  function Expected(s: Source, w: World): Option<Value> {
    if DivisorsLargeEnough(s, w) then Meaning(s, w) else None
  }

  /** Every '!' has an operand without parameters, or one that is -1 or undefined. */
  predicate BangsRight(s: Source, w: World) {
    match s
    case Literal(_) => true
    case Param(_, _) => true
    case Prefix(op, e) => BangsRight(e, w) && (op[0] == '!' ==> Closed(e) || BangRight(Expected(e, w)))
    case Arith(_, l, r) => BangsRight(l, w) && BangsRight(r, w)
    case Relational(_, l, r) => BangsRight(l, w) && BangsRight(r, w)
    case Logical(_, l, r) => BangsRight(l, w) && BangsRight(r, w)
  }

  predicate BangRight(x: Option<Value>) {
    x == None || x == Some(IntV(-1))
  }

  predicate OfType(o: Option<Value>, t: Type) {
    o.Some? ==> ValueType(o.value) == t
  }

  lemma {:induction false} StaticResolve(t: Term, w: World)
    requires Static(t)
    ensures Resolve(t, w) == StaticValue(t)
  {
    if t.Const? {
    } else if IsBinary(t) {
      StaticResolve(t.left, w);
      StaticResolve(t.right, w);
    } else {
      StaticResolve(t.arg, w);
    }
  }

  /** Folding changes neither the value nor, for a well-typed term, the type. */
  lemma FoldPreserves(t: Term, thrown: Checked, w: World)
    requires Fold(t, thrown).Typed? && !thrown.Typed?
    requires OfType(Resolve(t, w), TypeOf(t))
    ensures Resolve(Fold(t, thrown).term, w) == Resolve(t, w)
    ensures TypeOf(Fold(t, thrown).term) == TypeOf(t)
  {
    if Static(t) {
      StaticResolve(t, w);
    }
  }

  lemma {:induction false} ResolveTyped(t: Term, w: World)
    ensures OfType(Resolve(t, w), TypeOf(t))
  {
  }

  /** The value at a node, from what its operands resolve to. */
  function ArithExpected(op: Token, x: Option<Value>, y: Option<Value>): Option<Value> {
    match (x, y)
    case (Some(a), Some(b)) => if DivisorLargeEnough(op[0], a, b) then ArithMeaning(op, a, b) else None
    case _ => None
  }

  function RelationalExpected(op: Token, x: Option<Value>, y: Option<Value>): Option<Value> {
    match (x, y)
    case (Some(a), Some(b)) => RelationalMeaning(op, a, b)
    case _ => None
  }

  function LogicalExpected(op: Token, x: Option<Value>, y: Option<Value>): Option<Value> {
    match (x, y)
    case (Some(a), Some(b)) => LogicalMeaning(op, a, b)
    case _ => None
  }

  function PrefixExpected(op: Token, x: Option<Value>): Option<Value> {
    match x
    case Some(a) => PrefixMeaning(op, a)
    case None => None
  }

  /** If checking succeeds, the term resolves to the source's value at the term's type, in
      every world: exactly, except that it does not resolve where a real divisor is negative
      or too small.  Where a '!' has a parameter in its operand, that takes a world in which
      the operand is -1 or undefined. */
  lemma {:induction false} CheckPreservesMeaning(s: Source, w: World)
    requires Check(s).Typed? && BangsRight(s, w)
    ensures Resolve(Check(s).term, w) == Expected(s, w)
    ensures OfType(Expected(s, w), TypeOf(Check(s).term))
  {
    hide Resolve, Static, TypeOf, ArithMeaning, RelationalMeaning, LogicalMeaning, PrefixMeaning, DivisorLargeEnough,
      CheckPrefix, CheckArith, CheckRelational, CheckLogical;
    ResolveTyped(Check(s).term, w);
    match s
    case Literal(v) =>
      ResolveLeaf(Const(v), w);
    case Param(n, t) =>
      ResolveLeaf(Var(n, t), w);
    case Prefix(op, e) =>
      OperandTyped(op[0], Check(e));
      CheckPreservesMeaning(e, w);
      ClosedIsStatic(e);
      PrefixPreservesExactly(op, Check(e).term, w);
    case Arith(op, l, r) =>
      CheckPreservesMeaning(l, w);
      CheckPreservesMeaning(r, w);
      ArithPreserves(op, Check(l).term, Check(r).term, w);
    case Relational(op, l, r) =>
      CheckPreservesMeaning(l, w);
      CheckPreservesMeaning(r, w);
      RelationalPreserves(op, Check(l).term, Check(r).term, w);
    case Logical(op, l, r) =>
      CheckPreservesMeaning(l, w);
      CheckPreservesMeaning(r, w);
      LogicalPreserves(op, Check(l).term, Check(r).term, w);
  }

  /** The source evaluated as it is, in every world: like its meaning, except that '!' of an
      operand with a parameter in it is the bitwise complement, and that a divisor that is too
      small counts as zero. */
  function Evaluated(s: Source, w: World): Option<Value> {
    match s
    case Literal(v) => Some(v)
    case Param(n, t) => Some(ParamValue(n, t, w))
    case Prefix(op, e) => PrefixEvaluated(op, Closed(e), Evaluated(e, w))
    case Arith(op, l, r) => ArithExpected(op, Evaluated(l, w), Evaluated(r, w))
    case Relational(op, l, r) => RelationalExpected(op, Evaluated(l, w), Evaluated(r, w))
    case Logical(op, l, r) => LogicalExpected(op, Evaluated(l, w), Evaluated(r, w))
  }

  function PrefixEvaluated(op: Token, closed: bool, x: Option<Value>): Option<Value> {
    PrefixExpected(if op[0] == '!' && !closed then "~" else op, x)
  }

  /** What any checked expression resolves to, in every world. */
  lemma {:induction false} CheckEvaluates(s: Source, w: World)
    requires Check(s).Typed?
    ensures Resolve(Check(s).term, w) == Evaluated(s, w)
  {
    hide Resolve, Static, TypeOf, ArithExpected, RelationalExpected, LogicalExpected, PrefixEvaluated,
      CheckPrefix, CheckArith, CheckRelational, CheckLogical;
    match s
    case Literal(v) =>
      ResolveLeaf(Const(v), w);
    case Param(n, t) =>
      ResolveLeaf(Var(n, t), w);
    case Prefix(op, e) =>
      OperandTyped(op[0], Check(e));
      CheckEvaluates(e, w);
      ClosedIsStatic(e);
      PrefixEvaluates(op, Check(e).term, w);
    case Arith(op, l, r) =>
      CheckEvaluates(l, w);
      CheckEvaluates(r, w);
      ArithPreserves(op, Check(l).term, Check(r).term, w);
    case Relational(op, l, r) =>
      CheckEvaluates(l, w);
      CheckEvaluates(r, w);
      RelationalPreserves(op, Check(l).term, Check(r).term, w);
    case Logical(op, l, r) =>
      CheckEvaluates(l, w);
      CheckEvaluates(r, w);
      LogicalPreserves(op, Check(l).term, Check(r).term, w);
  }

  lemma PrefixEvaluates(op: Token, t: Term, w: World)
    requires CheckPrefix(op[0], Typed(t)).Typed?
    ensures Resolve(CheckPrefix(op[0], Typed(t)).term, w) == PrefixEvaluated(op, Static(t), Resolve(t, w))
  {
    hide Resolve, Static;
    ResolveTyped(t, w);
    PrefixPreservesExactly(op, t, w);
    if op[0] == '!' && !Static(t) {
      ResolveUnary(IntUnary('!', t), w);
    }
  }

  lemma OperandTyped(ch: char, e: Checked)
    ensures CheckPrefix(ch, e).Typed? ==> e.Typed?
  {
  }

  lemma ResolveLeaf(t: Term, w: World)
    ensures t.Const? ==> Resolve(t, w) == Some(t.value)
    ensures t.Var? ==> Resolve(t, w) == Some(ParamValue(t.name, t.vtype, w))
  {
  }

  lemma ResolveUnary(t: Term, w: World)
    requires t.IntUnary? || t.RealNegation? || t.BoolNegation? || t.ToReal?
    ensures Resolve(t, w) == match Resolve(t.arg, w) case Some(a) => Unary(t, a) case None => None
  {
  }

  lemma ResolveBinary(t: Term, w: World)
    requires IsBinary(t)
    ensures Resolve(t, w) == match (Resolve(t.left, w), Resolve(t.right, w))
                             case (Some(a), Some(b)) => Binary(t, a, b)
                             case _ => None
  {
  }

  /** Exactly when a prefix operator is right: '!' for an operand that is constant, -1 or
      undefined, the others always. */
  lemma PrefixPreservesExactly(op: Token, t: Term, w: World)
    requires CheckPrefix(op[0], Typed(t)).Typed?
    ensures Resolve(CheckPrefix(op[0], Typed(t)).term, w) == PrefixExpected(op, Resolve(t, w))
            <==> (op[0] == '!' ==> Static(t) || BangRight(Resolve(t, w)))
  {
    hide Resolve, Static;
    ResolveTyped(t, w);
    if op[0] == '!' {
      StaticIfFolded(t, w);
      ResolveLeaf(CheckPrefix(op[0], Typed(t)).term, w);
      ResolveUnary(IntUnary('!', t), w);
    } else {
      var u := if op[0] == '-' then (if TypeOf(t) == PInt then IntUnary('-', t) else RealNegation(t))
               else if TypeOf(t) == PBool then BoolNegation(t) else IntUnary('~', t);
      ResolveUnary(u, w);
      ResolveTyped(u, w);
      FoldPreserves(u, Thrown, w);
    }
  }

  lemma StaticIfFolded(t: Term, w: World)
    ensures Static(t) ==> Resolve(t, w) == StaticValue(t)
  {
    if Static(t) {
      StaticResolve(t, w);
    }
  }

  /** A term is constant exactly if no parameter occurs in the source. */
  lemma {:induction false} ClosedIsStatic(s: Source)
    requires Check(s).Typed?
    ensures Static(Check(s).term) <==> Closed(s)
  {
    match s
    case Literal(_) =>
    case Param(_, _) =>
    case Prefix(op, e) => ClosedIsStatic(e);
    case Arith(_, l, r) => ClosedIsStatic(l); ClosedIsStatic(r);
    case Relational(_, l, r) => ClosedIsStatic(l); ClosedIsStatic(r);
    case Logical(_, l, r) => ClosedIsStatic(l); ClosedIsStatic(r);
  }

  lemma ArithPreserves(op: Token, a: Term, b: Term, w: World)
    requires CheckArith(op, a, b).Typed?
    ensures Resolve(CheckArith(op, a, b).term, w) == ArithExpected(op, Resolve(a, w), Resolve(b, w))
  {
    hide Resolve, Static, Fold, IntOp, RealOp, ArithExpected;
    match (TypeOf(a), TypeOf(b))
    case (PInt, PInt) => IntArithPreserves(op, a, b, w);
    case (PBool, PBool) => BoolArithPreserves(op, a, b, w);
    case _ => RealArithPreserves(op, a, b, w);
  }

  lemma IntArithPreserves(op: Token, a: Term, b: Term, w: World)
    requires TypeOf(a) == PInt == TypeOf(b) && CheckArith(op, a, b).Typed?
    ensures Resolve(CheckArith(op, a, b).term, w) == ArithExpected(op, Resolve(a, w), Resolve(b, w))
  {
    hide Resolve, Static, Fold, IntOp;
    ResolveTyped(a, w);
    ResolveTyped(b, w);
    var t := IntArith(op[0], a, b);
    ResolveBinary(t, w);
    ResolveTyped(t, w);
    FoldPreserves(t, Null, w);
  }

  lemma BoolArithPreserves(op: Token, a: Term, b: Term, w: World)
    requires TypeOf(a) == PBool == TypeOf(b) && CheckArith(op, a, b).Typed?
    ensures Resolve(CheckArith(op, a, b).term, w) == ArithExpected(op, Resolve(a, w), Resolve(b, w))
  {
    hide Resolve, Static, Fold, IntOp, RealOp, GuardedRealOp, Smallest;
    ResolveTyped(a, w);
    ResolveTyped(b, w);
    var t := BoolLogic(if op[0] == '&' then "&&" else if op[0] == '|' then "||" else "!=", a, b);
    ResolveBinary(t, w);
    ResolveTyped(t, w);
    FoldPreserves(t, Thrown, w);
  }

  lemma RealArithPreserves(op: Token, a: Term, b: Term, w: World)
    requires (TypeOf(a) == PReal || TypeOf(b) == PReal) && CheckArith(op, a, b).Typed?
    ensures Resolve(CheckArith(op, a, b).term, w) == ArithExpected(op, Resolve(a, w), Resolve(b, w))
  {
    hide Resolve, Static, Fold, RealOp, GuardedRealOp, Smallest;
    ResolveTyped(a, w);
    ResolveTyped(b, w);
    var x := if TypeOf(a) == PInt then ToReal(a) else a;
    var y := if TypeOf(b) == PInt then ToReal(b) else b;
    var t := RealArith(op[0], x, y);
    ResolveUnary(ToReal(a), w);
    ResolveUnary(ToReal(b), w);
    ResolveBinary(t, w);
    ResolveTyped(t, w);
    RealGuard(op[0], Resolve(x, w), Resolve(y, w));
    if CheckArith(op, a, b) != Typed(t) {
      FoldPreserves(t, Null, w);
    }
  }

  /** A divisor that is let through is not zero. */
  lemma RealGuard(op: char, a: Option<Value>, b: Option<Value>)
    ensures a.Some? && b.Some? && a.value.RealV? && b.value.RealV? ==>
              GuardedRealOp(op, a.value.r, b.value.r)
              == if (op == '/' || op == '%') && b.value.r != 0.0 && b.value.r < Smallest() then None
                 else RealOp(op, a.value.r, b.value.r)
  {
  }

  lemma RelationalPreserves(op: Token, a: Term, b: Term, w: World)
    requires CheckRelational(op, a, b).Typed?
    ensures Resolve(CheckRelational(op, a, b).term, w) == RelationalExpected(op, Resolve(a, w), Resolve(b, w))
  {
    hide Resolve, Static, Fold, IntCompare, RealCompare, BoolOp;
    ResolveTyped(a, w);
    ResolveTyped(b, w);
    var t := if TypeOf(a) == PInt then IntRelation(op, a, b)
             else if TypeOf(a) == PReal then RealRelation(op, a, b) else BoolLogic(op, a, b);
    ResolveBinary(t, w);
    ResolveTyped(t, w);
    FoldPreserves(t, Thrown, w);
  }

  lemma LogicalPreserves(op: Token, a: Term, b: Term, w: World)
    requires CheckLogical(op, a, b).Typed?
    ensures Resolve(CheckLogical(op, a, b).term, w) == LogicalExpected(op, Resolve(a, w), Resolve(b, w))
  {
    hide Resolve, Static, Fold, IntOp, BoolOp;
    ResolveTyped(a, w);
    ResolveTyped(b, w);
    var t := if TypeOf(a) == PInt then IntArith(op[0], a, b) else BoolLogic(op, a, b);
    ResolveBinary(t, w);
    ResolveTyped(t, w);
    if TypeOf(a) == PBool {
      FoldPreserves(t, Thrown, w);
    }
  }

  // ---- types ----

  /** The type that the language assigns: an int and a real make a real; bitwise operators of
      bools and logical operators of ints are let pass. */
  function Assigned(s: Source): Option<Type> {
    match s
    case Literal(v) => Some(ValueType(v))
    case Param(_, t) => Some(t)
    case Prefix(op, e) =>
      (match (op[0], Assigned(e))
       case ('-', Some(PInt)) => Some(PInt)
       case ('-', Some(PReal)) => Some(PReal)
       case ('!', Some(PInt)) => Some(PInt)
       case ('~', Some(PInt)) => Some(PInt)
       case ('~', Some(PBool)) => Some(PBool)
       case _ => None)
    case Arith(op, l, r) =>
      (match (Assigned(l), Assigned(r))
       case (Some(PInt), Some(PInt)) => if IntOperator(op[0]) then Some(PInt) else None
       case (Some(PBool), Some(PBool)) => if op[0] in {'&', '|', '^'} then Some(PBool) else None
       case (Some(a), Some(b)) => if a != PBool && b != PBool && RealOperator(op[0]) then Some(PReal) else None
       case _ => None)
    case Relational(op, l, r) =>
      (match (Assigned(l), Assigned(r))
       case (Some(a), Some(b)) =>
         if a == b && (if a == PBool then LogicalOperator(op) else RelationalOperator(op)) then Some(PBool) else None
       case _ => None)
    case Logical(op, l, r) =>
      (match (Assigned(l), Assigned(r))
       case (Some(PBool), Some(PBool)) => if LogicalOperator(op) then Some(PBool) else None
       case (Some(PInt), Some(PInt)) => if op[0] in {'&', '|'} then Some(PInt) else None
       case _ => None)
  }

  /** What checks has the assigned type, folded or not; what has no type never checks. */
  lemma {:induction false} CheckedAsAssigned(s: Source)
    requires Check(s).Typed?
    ensures Assigned(s) == Some(TypeOf(Check(s).term))
  {
    match s
    case Literal(_) =>
    case Param(_, _) =>
    case Prefix(op, e) =>
      CheckedAsAssigned(e);
    case Arith(op, l, r) =>
      CheckedAsAssigned(l);
      CheckedAsAssigned(r);
      BinaryTyped(op, Check(l).term, Check(r).term);
    case Relational(op, l, r) =>
      CheckedAsAssigned(l);
      CheckedAsAssigned(r);
      BinaryTyped(op, Check(l).term, Check(r).term);
    case Logical(op, l, r) =>
      CheckedAsAssigned(l);
      CheckedAsAssigned(r);
      BinaryTyped(op, Check(l).term, Check(r).term);
  }

  lemma BinaryTyped(op: Token, l: Term, r: Term)
    ensures CheckArith(op, l, r).Typed? ==>
      match (TypeOf(l), TypeOf(r))
      case (PInt, PInt) => IntOperator(op[0]) && TypeOf(CheckArith(op, l, r).term) == PInt
      case (PBool, PBool) => op[0] in {'&', '|', '^'} && TypeOf(CheckArith(op, l, r).term) == PBool
      case (a, b) => a != PBool && b != PBool && RealOperator(op[0]) && TypeOf(CheckArith(op, l, r).term) == PReal
    ensures CheckRelational(op, l, r).Typed? ==>
      && TypeOf(l) == TypeOf(r) && TypeOf(CheckRelational(op, l, r).term) == PBool
      && (if TypeOf(l) == PBool then LogicalOperator(op) else RelationalOperator(op))
    ensures CheckLogical(op, l, r).Typed? ==>
      match (TypeOf(l), TypeOf(r))
      case (PInt, PInt) => op[0] in {'&', '|'} && TypeOf(CheckLogical(op, l, r).term) == PInt
      case (PBool, PBool) => LogicalOperator(op) && TypeOf(CheckLogical(op, l, r).term) == PBool
      case _ => false
  {
    hide Resolve, Static, Fold;
  }

  // ---- where it does not ----

  /** '!' of something that is not constant is kept as a unary operator, and resolved as the
      bitwise complement: exactly the operand -1 comes out right. */
  lemma OpenBangExactly(e: Source, w: World)
    requires Check(e).Typed? && Assigned(e) == Some(PInt) && !Closed(e)
    requires Meaning(e, w).Some? && Meaning(e, w).value.IntV? && Resolve(Check(e).term, w) == Meaning(e, w)
    ensures Check(Prefix("!", e)).Typed?
    ensures Resolve(Check(Prefix("!", e)).term, w) == Meaning(Prefix("!", e), w) <==> Meaning(e, w).value.i == -1
  {
    hide Resolve, Static, Meaning;
    CheckedAsAssigned(e);
    ClosedIsStatic(e);
    PrefixPreservesExactly("!", Check(e).term, w);
    MeaningOfPrefix("!", e, w);
  }

  lemma MeaningOfPrefix(op: Token, e: Source, w: World)
    ensures Meaning(Prefix(op, e), w) == PrefixExpected(op, Meaning(e, w))
  {
  }

  /** !n, for a parameter n that is 0, resolves to -1 and not to 1. */
  lemma OpenBangExample()
    ensures var s := Prefix("!", Param("n", PInt));
      && Check(s).Typed?
      && Resolve(Check(s).term, Anywhere()) == Some(IntV(-1)) && Meaning(s, Anywhere()) == Some(IntV(1))
  {
    var e := Param("n", PInt);
    assert Check(e) == Typed(Var("n", PInt));
    assert Check(Prefix("!", e)) == CheckPrefix('!', Check(e));
    assert Check(Prefix("!", e)) == Typed(IntUnary('!', Var("n", PInt)));
    ResolveLeaf(Var("n", PInt), Anywhere());
    ResolveUnary(IntUnary('!', Var("n", PInt)), Anywhere());
  }

  /** A real quotient of parameters resolves exactly if the divisor is not below the smallest
      positive number; 6.0 / -2.0 is reported as a division by zero. */
  lemma QuotientResolvesExactly(x: string, y: string, w: World)
    ensures var s := Arith("/", Param(x, PReal), Param(y, PReal));
      && Check(s).Typed?
      && (Resolve(Check(s).term, w).Some? <==> w.reals(y) >= Smallest())
      && (Meaning(s, w).Some? <==> w.reals(y) != 0.0)
  {
    hide IntOp, Smallest;
    var s := Arith("/", Param(x, PReal), Param(y, PReal));
    var a, b := Var(x, PReal), Var(y, PReal);
    assert !Static(RealArith('/', a, b));
    assert Check(s.left) == Typed(a) && Check(s.right) == Typed(b);
    assert Check(s) == CheckArith("/", a, b) == Typed(RealArith('/', a, b));
  }
}
