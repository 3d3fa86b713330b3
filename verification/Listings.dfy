/** Listings of everything of one meta-type, process by process, in a numbering that counts
    every private process.  A listing may start at any footprint: that of a module, or that of
    a type with ports. */
module Listings {
  import opened Footprints
  import opened Numbering
  import opened Frames
  import opened Options

  /** What is shown of a process: the ids passed in through its ports, and where its own
      private ids start, where those of its subprocesses start, and where those end. */
  datatype Detail = Detail(ports: seq<seq<nat>>, own: seq<nat>, nested: seq<nat>, end: seq<nat>)

  /** One line: global id, id of the enclosing process (0 is the top) and local id. */
  datatype Row = Row(gid: nat, super: nat, lid: nat, detail: Option<Detail>)

  function WithPrivates(o: seq<nat>, f: Footprint): (s: seq<nat>)
    requires |o| == TAGS && WellFormed(f)
    ensures |s| == TAGS && forall t: Tag :: s[t] == o[t] + Privates(f, t)
  {
    seq(TAGS, t requires 0 <= t < TAGS => o[t] + Privates(f, t))
  }

  function WithTotals(o: seq<nat>, f: Footprint): (s: seq<nat>)
    requires |o| == TAGS && WellFormed(f)
    ensures |s| == TAGS && forall t: Tag :: s[t] == o[t] + Total(f, t)
  {
    seq(TAGS, t requires 0 <= t < TAGS => o[t] + Total(f, t))
  }

  // ---- the numbering of the traversal: every private process counts ----

  lemma SameBelow(top: Footprint, path: seq<nat>)
    requires WellFormed(top)
    ensures PrivatePath(top, path) == PrivatePath(Remapped(top), path)
    ensures PrivatePath(top, path) ==> At(Remapped(top), path) == if path == [] then Remapped(top) else At(top, path)
    ensures PrivatePath(top, path) && path != [] ==> Allocated(At(top, path)) && At(top, path) != top
  {
    hide WellFormed;
  }

  function WalkOffset(top: Footprint, t: Tag, path: seq<nat>): nat
    requires WellFormed(top) && PrivatePath(top, path)
  {
    SameBelow(top, path);
    Offset(Remapped(top), t, path)
  }

  function WalkOffsets(top: Footprint, path: seq<nat>): (s: seq<nat>)
    requires WellFormed(top) && PrivatePath(top, path)
    ensures |s| == TAGS && forall t: Tag :: s[t] == WalkOffset(top, t, path)
  {
    seq(TAGS, t requires 0 <= t < TAGS => WalkOffset(top, t, path))
  }

  function WalkProcessId(top: Footprint, path: seq<nat>): nat
    requires WellFormed(top) && PrivatePath(top, path)
  {
    SameBelow(top, path);
    if path == [] then 0 else ProcessId(Remapped(top), path)
  }

  lemma TopProcessId(top: Footprint)
    requires WellFormed(top) && PrivatePath(top, [])
    ensures WalkProcessId(top, []) == 0
  {
  }

  /** The entries of the private processes among the first n. */
  function Inside(f: Footprint, t: Tag, n: nat): nat
    requires WellFormed(f) && n <= |f.procs|
  {
    Between(f, t, f.ports[PROCESS], n)
  }

  lemma WalkOffsetStart(top: Footprint, t: Tag)
    requires WellFormed(top)
    ensures WalkOffset(top, t, []) == 0
  {
  }

  lemma WalkOffsetSplit(top: Footprint, t: Tag, path: seq<nat>, lpid: nat)
    requires WellFormed(top) && PrivatePath(top, path) && At(top, path).ports[PROCESS] < lpid <= |At(top, path).procs|
    ensures PrivatePath(top, path + [lpid]) && At(top, path + [lpid]) == Child(At(top, path), lpid)
    ensures WalkOffset(top, t, path + [lpid])
         == WalkOffset(top, t, path) + Privates(At(top, path), t) + Inside(At(top, path), t, lpid - 1)
  {
    hide WellFormed, PrivatePath, At, Before, Total, Offset;
    PathSplit(top, path, lpid);
    SameBelow(top, path);
    SameBelow(top, path + [lpid]);
    OffsetSplit(Remapped(top), t, path, lpid);
    if path == [] {
      TopIsHere(top);
      RemappedCounts(top, t, lpid - 1);
    } else {
      BeforeIsBetween(At(top, path), t, lpid - 1);
    }
  }

  lemma TopIsHere(top: Footprint)
    requires WellFormed(top)
    ensures PrivatePath(top, []) && At(top, []) == top
  {
  }

  lemma WalkProcessIdOfChild(top: Footprint, path: seq<nat>, lpid: nat)
    requires WellFormed(top) && PrivatePath(top, path) && At(top, path).ports[PROCESS] < lpid <= |At(top, path).procs|
    ensures PrivatePath(top, path + [lpid])
    ensures WalkProcessId(top, path + [lpid])
         == WalkOffset(top, PROCESS, path) + lpid - At(top, path).ports[PROCESS]
  {
    hide WellFormed, PrivatePath, At, Offset;
    PathSplit(top, path, lpid);
    SameBelow(top, path);
    SameBelow(top, path + [lpid]);
    TopIsHere(top);
    assert PlaceOf(path + [lpid]) == Place(path, lpid - 1);
  }

  /** The frames of the traversal.  At the top nothing is passed in, so ports have the id 0
      and private entries are numbered from 1. */
  function WalkContext(top: Footprint, path: seq<nat>): (c: Context)
    requires WellFormed(top) && PrivatePath(top, path)
    ensures Sized(c) && c.footprint == At(top, path) && c.offset == WalkOffsets(top, path)
    decreases |path|
  {
    if path == [] then
      Context(top,
              seq(TAGS, t requires 0 <= t < TAGS => Extended(top.locals[t], NoIds(top.ports[t]), 0)),
              WalkOffsets(top, []))
    else
      var parent, last := path[..|path| - 1], path[|path| - 1];
      assert path == parent + [last];
      PathSplit(top, parent, last);
      ChildContext(WalkContext(top, parent), last, WalkOffsets(top, path))
  }

  function NoIds(n: nat): (s: seq<nat>)
    ensures |s| == n
  {
    seq(n, k => 0)
  }

  lemma WalkContextOfChild(top: Footprint, path: seq<nat>, lpid: nat)
    requires WellFormed(top) && PrivatePath(top, path) && At(top, path).ports[PROCESS] < lpid <= |At(top, path).procs|
    ensures PrivatePath(top, path + [lpid])
    ensures WalkContext(top, path + [lpid]) == ChildContext(WalkContext(top, path), lpid, WalkOffsets(top, path + [lpid]))
  {
    hide WellFormed, PrivatePath, At, WalkOffset, ChildContext;
    PathSplit(top, path, lpid);
    assert (path + [lpid])[..|path|] == path;
  }

  /** Private entries follow the offset in every frame of the traversal. */
  lemma WalkEntry(top: Footprint, t: Tag, path: seq<nat>, lid: nat)
    requires WellFormed(top) && PrivatePath(top, path) && At(top, path).ports[t] < lid <= At(top, path).locals[t]
    ensures WalkContext(top, path).frame[t][lid - 1] == WalkOffset(top, t, path) + lid - At(top, path).ports[t]
  {
    hide WellFormed, PrivatePath, WalkOffset;
    if path == [] {
      WalkOffsetStart(top, t);
    } else {
      var parent, last := path[..|path| - 1], path[|path| - 1];
      assert path == parent + [last];
      PathSplit(top, parent, last);
      ChildEntry(WalkContext(top, parent), last, WalkOffsets(top, path), t, lid);
    }
  }

  // ---- the lines ----

  /** The offsets shown for the i-th (0-based) process of the one at path.  At the top the
      count starts with the processes that are ports. */
  function ShownOffset(top: Footprint, path: seq<nat>, i: nat): (s: seq<nat>)
    requires WellFormed(top) && PrivatePath(top, path) && i <= |At(top, path).procs|
    ensures |s| == TAGS
    ensures forall t: Tag :: s[t] == WalkOffset(top, t, path) + Privates(At(top, path), t)
                                     + if path == [] then Between(At(top, path), t, 0, i) else Inside(At(top, path), t, i)
  {
    var f := At(top, path);
    seq(TAGS, t requires 0 <= t < TAGS =>
      WalkOffset(top, t, path) + Privates(f, t) + if path == [] then Between(f, t, 0, i) else Inside(f, t, i))
  }

  /** The actuals of a process, seen from the frame of the enclosing one. */
  function PassedIn(f: Footprint, lpid: nat, ids: seq<seq<nat>>): (s: seq<seq<nat>>)
    requires WellFormed(f) && 1 <= lpid <= |f.procs|
    requires |ids| == TAGS && forall t: Tag :: |ids[t]| == f.locals[t]
    ensures |s| == TAGS && Connected(f, f.procs[lpid - 1])
    ensures forall t: Tag :: s[t] == Through(f.procs[lpid - 1].actuals[t], ids[t])
  {
    ConnectedAt(f, lpid);
    seq(TAGS, t requires 0 <= t < TAGS => Through(f.procs[lpid - 1].actuals[t], ids[t]))
  }

  function DetailAt(top: Footprint, path: seq<nat>, i: nat): Detail
    requires WellFormed(top) && PrivatePath(top, path) && i < |At(top, path).procs|
  {
    var f, own := At(top, path), ShownOffset(top, path, i);
    var child := Child(f, i + 1);
    Detail(PassedIn(f, i + 1, WalkContext(top, path).frame), own, WithPrivates(own, child), WithTotals(own, child))
  }

  /** The line for the i-th (0-based) entry of the process at path.  At the top the local id is
      taken for the global one, ports or not. */
  function LineAt(top: Footprint, t: Tag, path: seq<nat>, i: nat): Row
    requires WellFormed(top) && PrivatePath(top, path) && i < At(top, path).locals[t]
    requires path == [] || At(top, path).ports[t] <= i
  {
    Row(if path == [] then i + 1 else WalkOffset(top, t, path) + 1 + i - At(top, path).ports[t],
        WalkProcessId(top, path), i + 1,
        if t == PROCESS then Some(DetailAt(top, path, i)) else None)
  }

  /** The owner of a (0-based) index of the traversal, ports not counted. */
  function WalkOwner(top: Footprint, t: Tag, gi: nat): (p: Place)
    requires WellFormed(top) && gi < Total(Remapped(top), t)
    ensures PrivatePath(top, p.path) && At(top, p.path).ports[t] <= p.index < At(top, p.path).locals[t]
  {
    OwnerIsOwned(Remapped(top), t, gi);
    var p := Owner(Remapped(top), t, gi);
    SameBelow(top, p.path);
    p
  }

  /** The line for an index: that of its owner. */
  function LineOf(top: Footprint, t: Tag, gi: nat): Row
    requires WellFormed(top) && gi < Total(Remapped(top), t)
  {
    var p := WalkOwner(top, t, gi);
    LineAt(top, t, p.path, p.index)
  }

  function Lines(top: Footprint, t: Tag, from: nat, n: nat): (rows: seq<Row>)
    requires WellFormed(top) && from + n <= Total(Remapped(top), t)
    ensures |rows| == n && forall k | 0 <= k < n :: rows[k] == LineOf(top, t, from + k)
  {
    seq(n, k requires 0 <= k < n => LineOf(top, t, from + k))
  }

  function TopLines(top: Footprint, t: Tag, n: nat): (rows: seq<Row>)
    requires WellFormed(top) && n <= top.locals[t]
    ensures PrivatePath(top, []) && At(top, []) == top
    ensures |rows| == n && forall k | 0 <= k < n :: rows[k] == LineAt(top, t, [], k)
  {
    TopIsHere(top);
    seq(n, k requires 0 <= k < n => LineAt(top, t, [], k))
  }

  lemma TotalSplit(f: Footprint, t: Tag)
    requires WellFormed(f)
    ensures Total(Remapped(f), t) == Privates(f, t) + Inside(f, t, |f.procs|)
    ensures Allocated(f) ==> Total(f, t) == Privates(f, t) + Inside(f, t, |f.procs|)
  {
    hide WellFormed;
    RemappedCounts(f, t, |f.procs|);
    BeforeIsBetween(f, t, |f.procs|);
  }

  /** The whole listing: the entries of the top, ports included, and then everything in its
      private processes in the order of their indices.  Nothing at all is listed if the top
      has no ports of this meta-type and its maps count nothing. */
  function Listing(top: Footprint, t: Tag): seq<Row>
    requires WellFormed(top)
  {
    TotalSplit(top, t);
    if Total(top, t) == 0 && top.ports[t] == 0 then []
    else TopLines(top, t, top.locals[t]) + Lines(top, t, Privates(top, t), Inside(top, t, |top.procs|))
  }

  /** The subtree of a process lies inside the whole. */
  lemma WalkInRange(top: Footprint, t: Tag, path: seq<nat>)
    requires WellFormed(top) && PrivatePath(top, path) && path != []
    ensures WalkOffset(top, t, path) + Total(At(top, path), t) <= Total(Remapped(top), t)
  {
    hide WellFormed, PrivatePath, At, Offset, Total;
    SameBelow(top, path);
    OffsetInRange(Remapped(top), t, path);
  }

  /** Below the top the line for a place is the line for its index. */
  lemma LineOfPlace(top: Footprint, t: Tag, path: seq<nat>, i: nat)
    requires WellFormed(top) && PrivatePath(top, path) && At(top, path).ports[t] <= i < At(top, path).locals[t]
    ensures WalkOffset(top, t, path) + i - At(top, path).ports[t] < Total(Remapped(top), t)
    ensures LineOf(top, t, WalkOffset(top, t, path) + i - At(top, path).ports[t]) == LineAt(top, t, path, i)
  {
    hide WellFormed, PrivatePath, At, Offset, Total, Owner, LineAt;
    SameBelow(top, path);
    TopIsHere(top);
    OwnerOfGlobalIndex(Remapped(top), t, Place(path, i));
  }

  lemma LinesConcat(top: Footprint, t: Tag, from: nat, m: nat, n: nat)
    requires WellFormed(top) && from + m + n <= Total(Remapped(top), t)
    ensures Lines(top, t, from, m) + Lines(top, t, from + m, n) == Lines(top, t, from, m + n)
  {
    hide WellFormed, LineOf, Total;
  }

  /** The offset of the i-th (0-based) process of the one at path, private processes counted. */
  function NestedOffset(top: Footprint, path: seq<nat>, i: nat): (s: seq<nat>)
    requires WellFormed(top) && PrivatePath(top, path) && i <= |At(top, path).procs|
    ensures |s| == TAGS
    ensures forall t: Tag :: s[t] == WalkOffset(top, t, path) + Privates(At(top, path), t) + Inside(At(top, path), t, i)
  {
    var f := At(top, path);
    seq(TAGS, t requires 0 <= t < TAGS => WalkOffset(top, t, path) + Privates(f, t) + Inside(f, t, i))
  }

  lemma ShownStart(top: Footprint, path: seq<nat>)
    requires WellFormed(top) && PrivatePath(top, path)
    ensures var f := At(top, path);
      && f.ports[PROCESS] <= |f.procs|
      && ShownOffset(top, path, if path == [] then 0 else f.ports[PROCESS]) == WithPrivates(WalkOffsets(top, path), f)
  {
    hide WellFormed, PrivatePath, WalkOffset;
  }

  lemma ShownNext(top: Footprint, path: seq<nat>, i: nat)
    requires WellFormed(top) && PrivatePath(top, path) && i < |At(top, path).procs|
    requires path == [] || At(top, path).ports[PROCESS] <= i
    ensures ShownOffset(top, path, i + 1) == WithTotals(ShownOffset(top, path, i), Child(At(top, path), i + 1))
  {
    hide WellFormed, PrivatePath, WalkOffset, Total;
  }

  lemma InsideNext(f: Footprint, t: Tag, lpid: nat)
    requires WellFormed(f) && f.ports[PROCESS] < lpid <= |f.procs|
    ensures Inside(f, t, lpid) == Inside(f, t, lpid - 1) + Total(Child(f, lpid), t)
  {
    hide WellFormed, Total;
  }

  lemma NestedNext(top: Footprint, path: seq<nat>, lpid: nat)
    requires WellFormed(top) && PrivatePath(top, path)
    requires At(top, path).ports[PROCESS] < lpid <= |At(top, path).procs|
    ensures NestedOffset(top, path, lpid)
         == WithTotals(NestedOffset(top, path, lpid - 1), Child(At(top, path), lpid))
  {
    hide WellFormed, PrivatePath, WalkOffset, Total;
  }

  lemma ChildWalk(top: Footprint, path: seq<nat>, lpid: nat)
    requires WellFormed(top) && PrivatePath(top, path)
    requires At(top, path).ports[PROCESS] < lpid <= |At(top, path).procs|
    ensures PrivatePath(top, path + [lpid]) && At(top, path + [lpid]) == Child(At(top, path), lpid)
    ensures WalkOffsets(top, path + [lpid]) == NestedOffset(top, path, lpid - 1)
    ensures forall t: Tag ::
      WalkContext(top, path + [lpid]).frame[t]
      == Extended(Child(At(top, path), lpid).locals[t],
                  PassedIn(At(top, path), lpid, WalkContext(top, path).frame)[t], WalkOffset(top, t, path + [lpid]))
  {
    hide WellFormed, PrivatePath, At, WalkOffset, WalkContext, ChildContext, Between;
    WalkContextOfChild(top, path, lpid);
    forall t: Tag
      ensures WalkOffset(top, t, path + [lpid]) == NestedOffset(top, path, lpid - 1)[t]
    {
      WalkOffsetSplit(top, t, path, lpid);
    }
    WalkOffsetSplit(top, PROCESS, path, lpid);
  }

  lemma NestedStart(top: Footprint, path: seq<nat>)
    requires WellFormed(top) && PrivatePath(top, path)
    ensures var f := At(top, path);
      f.ports[PROCESS] <= |f.procs| && NestedOffset(top, path, f.ports[PROCESS]) == WithPrivates(WalkOffsets(top, path), f)
  {
    hide WellFormed, PrivatePath, At, WalkOffset;
  }

  lemma PrivatesInRange(top: Footprint, t: Tag, path: seq<nat>)
    requires WellFormed(top) && PrivatePath(top, path) && path != []
    ensures WalkOffset(top, t, path) + Privates(At(top, path), t) <= Total(Remapped(top), t)
  {
    hide WellFormed, PrivatePath, At, WalkOffset, Before;
    WalkInRange(top, t, path);
  }

  lemma NestedInRange(top: Footprint, t: Tag, path: seq<nat>)
    requires WellFormed(top) && PrivatePath(top, path)
    ensures var f := At(top, path);
      WalkOffset(top, t, path) + Privates(f, t) + Inside(f, t, |f.procs|) <= Total(Remapped(top), t)
    ensures var f := At(top, path);
      forall n | 0 <= n <= |f.procs| :: Inside(f, t, n) <= Inside(f, t, |f.procs|)
  {
    hide WellFormed, PrivatePath, At, WalkOffset, Total;
    var f := At(top, path);
    SameBelow(top, path);
    TotalSplit(f, t);
    if path == [] {
      TopIsHere(top);
      WalkOffsetStart(top, t);
    } else {
      WalkInRange(top, t, path);
    }
    forall n | 0 <= n <= |f.procs|
      ensures Inside(f, t, n) <= Inside(f, t, |f.procs|)
    {
      if n >= f.ports[PROCESS] {
        BetweenSplit(f, t, f.ports[PROCESS], n, |f.procs|);
      }
    }
  }

  // ---- parts of a listing ----

  /** The lines of the entries of a process: at the top all of them, elsewhere the private ones. */
  function OwnLines(top: Footprint, t: Tag, path: seq<nat>): seq<Row>
    requires WellFormed(top) && PrivatePath(top, path)
  {
    if path == [] then TopLines(top, t, top.locals[t])
    else
      PrivatesInRange(top, t, path);
      Lines(top, t, WalkOffset(top, t, path), Privates(At(top, path), t))
  }

  /** The lines of everything in the private ones of the first n processes of the one at path. */
  function NestedLines(top: Footprint, t: Tag, path: seq<nat>, n: nat): seq<Row>
    requires WellFormed(top) && PrivatePath(top, path) && n <= |At(top, path).procs|
  {
    NestedInRange(top, t, path);
    Lines(top, t, WalkOffset(top, t, path) + Privates(At(top, path), t), Inside(At(top, path), t, n))
  }

  /** The lines of a process and everything below it. */
  function SubtreeLines(top: Footprint, t: Tag, path: seq<nat>): seq<Row>
    requires WellFormed(top) && PrivatePath(top, path)
  {
    if path == [] then Listing(top, t)
    else
      WalkInRange(top, t, path);
      Lines(top, t, WalkOffset(top, t, path), Total(At(top, path), t))
  }

  lemma NoNestedLines(top: Footprint, t: Tag, path: seq<nat>)
    requires WellFormed(top) && PrivatePath(top, path)
    ensures At(top, path).ports[PROCESS] <= |At(top, path).procs|
    ensures NestedLines(top, t, path, At(top, path).ports[PROCESS]) == []
  {
    hide WellFormed, PrivatePath, At, WalkOffset, Total, LineOf;
  }

  lemma NestedLinesNext(top: Footprint, t: Tag, path: seq<nat>, lpid: nat)
    requires WellFormed(top) && PrivatePath(top, path)
    requires At(top, path).ports[PROCESS] < lpid <= |At(top, path).procs|
    ensures PrivatePath(top, path + [lpid])
    ensures NestedLines(top, t, path, lpid)
         == NestedLines(top, t, path, lpid - 1) + SubtreeLines(top, t, path + [lpid])
  {
    hide WellFormed, PrivatePath, At, WalkOffset, Total, LineOf, Inside, Lines;
    WalkOffsetSplit(top, t, path, lpid);
    InsideNext(At(top, path), t, lpid);
    NestedInRange(top, t, path);
    LinesConcat(top, t, WalkOffset(top, t, path) + Privates(At(top, path), t), Inside(At(top, path), t, lpid - 1),
                Total(Child(At(top, path), lpid), t));
  }

  /** A subtree is the process itself and what is nested in it, unless it is passed over. */
  lemma SubtreeParts(top: Footprint, t: Tag, path: seq<nat>)
    requires WellFormed(top) && PrivatePath(top, path)
    ensures var f := At(top, path);
      SubtreeLines(top, t, path)
      == if Total(f, t) != 0 || (path == [] && f.ports[t] != 0)
         then OwnLines(top, t, path) + NestedLines(top, t, path, |f.procs|) else []
  {
    hide WellFormed, PrivatePath, At, WalkOffset, Total, OwnLines, NestedLines, SubtreeLines;
    if path == [] {
      TopParts(top, t);
    } else {
      PartsBelow(top, t, path);
    }
  }

  lemma TopParts(top: Footprint, t: Tag)
    requires WellFormed(top) && PrivatePath(top, [])
    ensures At(top, []) == top
    ensures SubtreeLines(top, t, [])
         == if Total(top, t) != 0 || top.ports[t] != 0
            then OwnLines(top, t, []) + NestedLines(top, t, [], |top.procs|) else []
  {
    hide WellFormed, PrivatePath, WalkOffset, Total, LineOf, LineAt, Inside;
    TopIsHere(top);
    WalkOffsetStart(top, t);
  }

  lemma PartsBelow(top: Footprint, t: Tag, path: seq<nat>)
    requires WellFormed(top) && PrivatePath(top, path) && path != []
    ensures var f := At(top, path);
      SubtreeLines(top, t, path)
      == if Total(f, t) != 0 then OwnLines(top, t, path) + NestedLines(top, t, path, |f.procs|) else []
  {
    hide WellFormed, PrivatePath, At, WalkOffset, Total, LineOf, Inside;
    NestedInRange(top, t, path);
    SameBelow(top, path);
    TotalSplit(At(top, path), t);
    LinesConcat(top, t, WalkOffset(top, t, path), Privates(At(top, path), t), Inside(At(top, path), t, |At(top, path).procs|));
  }
}
