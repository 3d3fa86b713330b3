/** Bounds of loops that are unrolled. */
module LoopBounds {
  type Env = map<string, int>

  /** Fixed bounds are both written out and constant.  Any others, a mere count included, are
      evaluated when the loop is unrolled. */
  datatype Bounds = Fixed(lower: int, upper: int) | Computed(from: string, to: string)

  /** Only fixed bounds are compared when a range is checked. */
  predicate OutOfOrder(b: Bounds) {
    b.Fixed? && b.lower > b.upper
  }

  function FirstIndex(b: Bounds, bound: (string, Env) -> int, env: Env): int {
    match b
    case Fixed(lower, _) => lower
    case Computed(from, _) => bound(from, env)
  }

  function LastIndex(b: Bounds, bound: (string, Env) -> int, env: Env): int {
    match b
    case Fixed(_, upper) => upper
    case Computed(_, to) => bound(to, env)
  }

  /** What bounds come to, in so many words. */
  predicate Ranges(b: Bounds, bound: (string, Env) -> int, env: Env, lo: int, hi: int) {
    match b
    case Fixed(lower, upper) => lo == lower && hi == upper
    case Computed(from, to) => lo == bound(from, env) && hi == bound(to, env)
  }

  /** A loop, with the variables of the loops around it, outermost first. */
  datatype LoopSpot = LoopSpot(around: seq<string>, ind: string, bounds: Bounds)

  /** Its variable has a name of its own, and its bounds, if they are fixed, are in order. */
  predicate Sound(l: LoopSpot, scope: set<string>) {
    && l.ind !in scope && l.ind !in l.around
    && (match l.bounds
        case Fixed(lower, upper) => lower <= upper
        case Computed(_, _) => true)
  }

  function Named(around: seq<string>): set<string> {
    set x | x in around
  }
}
