/** The body of a CHP process: a top-level statement list is cut after every forever loop,
    and the pieces run concurrently. */
module ChpBody {

  datatype Statement = ForeverLoop(body: string) | Other(text: string)

  /** A single statement stands for itself; several are grouped into a sequence. */
  datatype Action = One(stmt: Statement) | Sequence(stmts: seq<Statement>)

  function Statements(a: Action): seq<Statement> {
    match a
    case One(s) => [s]
    case Sequence(ss) => ss
  }

  function Concat(bodies: seq<Action>): seq<Statement> {
    if bodies == [] then [] else Statements(bodies[0]) + Concat(bodies[1..])
  }

  lemma {:induction false} ConcatAppend(bodies: seq<Action>, b: Action)
    ensures Concat(bodies + [b]) == Concat(bodies) + Statements(b)
  {
    if bodies != [] {
      assert (bodies + [b])[1..] == bodies[1..] + [b];
      ConcatAppend(bodies[1..], b);
    }
  }

  /** No forever loop except as the last statement. */
  predicate LoopOnlyLast(ss: seq<Statement>) {
    forall k | 0 <= k < |ss| - 1 :: !ss[k].ForeverLoop?
  }

  predicate EndsInLoop(ss: seq<Statement>) {
    ss != [] && ss[|ss| - 1].ForeverLoop?
  }

  /** What the pieces of a statement list must be. */
  predicate Partitions(bodies: seq<Action>, stmts: seq<Statement>) {
    && Concat(bodies) == stmts
    && (forall b | 0 <= b < |bodies| ::
          var ss := Statements(bodies[b]);
          && ss != [] && LoopOnlyLast(ss) && (bodies[b].One? <==> |ss| == 1)
          && (b < |bodies| - 1 ==> EndsInLoop(ss)))
  }

  lemma PartitionsNone()
    ensures Partitions([], [])
  {
  }

  lemma PartitionsAppend(bodies: seq<Action>, stmts: seq<Statement>, body: Action)
    requires Partitions(bodies, stmts)
    requires bodies != [] ==> EndsInLoop(Statements(bodies[|bodies| - 1]))
    requires Statements(body) != [] && LoopOnlyLast(Statements(body)) && (body.One? <==> |Statements(body)| == 1)
    ensures Partitions(bodies + [body], stmts + Statements(body))
  {
    hide Concat;
    ConcatAppend(bodies, body);
  }

  /** The position of the first forever loop at or after from, or the end. */
  method FindForever(stmts: seq<Statement>, from: nat) returns (k: nat)
    requires from <= |stmts|
    ensures from <= k <= |stmts|
    ensures forall j | from <= j < k :: !stmts[j].ForeverLoop?
    ensures k < |stmts| ==> stmts[k].ForeverLoop?
  {
    k := from;
    while k < |stmts| && !stmts[k].ForeverLoop?
      invariant from <= k <= |stmts|
      invariant forall j | from <= j < k :: !stmts[j].ForeverLoop?
    {
      k := k + 1;
    }
  }

  lemma PieceShape(stmts: seq<Statement>, start: nat, end: nat, body: Action)
    requires start < end <= |stmts|
    requires forall j | start <= j < end - 1 :: !stmts[j].ForeverLoop?
    requires end < |stmts| ==> stmts[end - 1].ForeverLoop?
    requires body == if end - start == 1 then One(stmts[start]) else Sequence(stmts[start..end])
    ensures stmts[..start] + Statements(body) == stmts[..end]
    ensures Statements(body) != [] && LoopOnlyLast(Statements(body)) && (body.One? <==> |Statements(body)| == 1)
    ensures end < |stmts| ==> EndsInLoop(Statements(body))
  {
    assert Statements(body) == stmts[start..end];
  }

  method AddBodies(stmts: seq<Statement>) returns (bodies: seq<Action>)
    ensures Partitions(bodies, stmts)
    ensures |bodies| == Loops(stmts) + if stmts == [] || stmts[|stmts| - 1].ForeverLoop? then 0 else 1
    ensures forall b | 0 <= b < |bodies| :: bodies[b].Sequence? ==> |bodies[b].stmts| >= 2
  {
    hide Partitions, Statements, LoopOnlyLast, EndsInLoop;
    PartitionsNone();
    bodies := [];
    var iter := 0;
    while iter != |stmts|
      invariant 0 <= iter <= |stmts|
      invariant Partitions(bodies, stmts[..iter])
      invariant iter < |stmts| && bodies != [] ==> EndsInLoop(Statements(bodies[|bodies| - 1]))
      decreases |stmts| - iter
    {
      var start := iter;
      iter := FindForever(stmts, iter);
      if iter != |stmts| {
        iter := iter + 1;
      }
      var body := if iter - start == 1 then One(stmts[start]) else Sequence(stmts[start..iter]);
      PieceShape(stmts, start, iter, body);
      PartitionsAppend(bodies, stmts[..start], body);
      bodies := bodies + [body];
    }
    assert stmts[..|stmts|] == stmts;
    PiecesCounted(bodies, stmts);
    PiecesGrouped(bodies, stmts);
  }

  /** How many forever loops there are. */
  function Loops(ss: seq<Statement>): nat {
    if ss == [] then 0 else (if ss[0].ForeverLoop? then 1 else 0) + Loops(ss[1..])
  }

  lemma {:induction false} LoopsConcat(a: seq<Statement>, b: seq<Statement>)
    ensures Loops(a + b) == Loops(a) + Loops(b)
  {
    if a == [] {
      assert a + b == b;
    } else {
      assert (a + b)[1..] == a[1..] + b;
      LoopsConcat(a[1..], b);
    }
  }

  lemma {:induction false} LoopsInPiece(ss: seq<Statement>)
    requires ss != [] && LoopOnlyLast(ss)
    ensures Loops(ss) == if EndsInLoop(ss) then 1 else 0
  {
    if |ss| > 1 {
      assert forall k | 0 <= k < |ss[1..]| - 1 :: ss[1..][k] == ss[k + 1];
      LoopsInPiece(ss[1..]);
    }
  }

  /** There is one piece for every forever loop, and one for what comes after the last. */
  lemma {:induction false} PiecesCounted(bodies: seq<Action>, stmts: seq<Statement>)
    requires Partitions(bodies, stmts)
    ensures |bodies| == Loops(stmts) + if stmts == [] || stmts[|stmts| - 1].ForeverLoop? then 0 else 1
    decreases |bodies|
  {
    if bodies != [] {
      var first, rest := Statements(bodies[0]), Concat(bodies[1..]);
      LoopsInPiece(first);
      LoopsConcat(first, rest);
      assert Partitions(bodies[1..], rest) by {
        assert forall b | 0 <= b < |bodies[1..]| :: bodies[1..][b] == bodies[b + 1];
      }
      PiecesCounted(bodies[1..], rest);
      if |bodies| == 1 {
        assert stmts == first;
      } else {
        assert rest != [] by {
          assert Statements(bodies[1..][0]) != [];
        }
        assert stmts[|stmts| - 1] == rest[|rest| - 1];
      }
    }
  }

  lemma PiecesGrouped(bodies: seq<Action>, stmts: seq<Statement>)
    requires Partitions(bodies, stmts)
    ensures forall b | 0 <= b < |bodies| :: bodies[b].Sequence? ==> |bodies[b].stmts| >= 2
  {
    forall b | 0 <= b < |bodies|
      ensures bodies[b].Sequence? ==> |bodies[b].stmts| >= 2
    {
      assert Statements(bodies[b]) != [];
    }
  }

  /** The pieces are determined by the statements: cutting anywhere else, or grouping
      differently, breaks one of the conditions. */
  lemma {:induction false} PartitionUnique(a: seq<Action>, b: seq<Action>, stmts: seq<Statement>)
    requires Partitions(a, stmts) && Partitions(b, stmts)
    ensures a == b
    decreases |a|
  {
    if a != [] && b != [] {
      FirstNotLonger(a, b, stmts);
      FirstNotLonger(b, a, stmts);
      var n := |Statements(a[0])|;
      assert Statements(a[0]) == stmts[..n] == Statements(b[0]);
      assert stmts[n..] == Concat(a[1..]) == Concat(b[1..]);
      PartitionUnique(a[1..], b[1..], stmts[n..]);
      assert a == [a[0]] + a[1..] && b == [b[0]] + b[1..];
    }
  }

  lemma FirstNotLonger(a: seq<Action>, b: seq<Action>, stmts: seq<Statement>)
    requires Partitions(a, stmts) && Partitions(b, stmts) && a != [] && b != []
    ensures |Statements(a[0])| <= |Statements(b[0])|
  {
    var p, q := Statements(a[0]), Statements(b[0]);
    if |b| == 1 {
      assert Concat(b[1..]) == [];
    } else {
      assert stmts[|q| - 1] == q[|q| - 1] && EndsInLoop(q);
      assert forall k | 0 <= k < |p| - 1 :: stmts[k] == p[k] && !stmts[k].ForeverLoop?;
    }
  }
}
