/** The traversal that makes a listing, keeping a running offset and the id of the process it
    is in. */
module EntryDumper {
  import opened Footprints
  import opened Numbering
  import opened Frames
  import opened Listings
  import opened Options

  datatype FootprintFrame = FootprintFrame(footprint: Footprint, ids: seq<seq<nat>>)

  class GlobalAllocationDumper {
    const top: Footprint
    const tag: Tag
    var rows: seq<Row>
    /** The id of the process whose entries are listed. */
    var pid: nat
    var fpf: FootprintFrame
    var parentOffset: seq<nat>
    var gOffset: seq<nat>

    constructor (topfp: Footprint, t: Tag)
      requires WellFormed(topfp)
      ensures top == topfp && tag == t && rows == [] && pid == 0 && Entering([])
    {
      top, tag, rows, pid := topfp, t, [], 0;
      fpf := FootprintFrame(topfp, seq(TAGS, k requires 0 <= k < TAGS => NoIds(topfp.ports[k])));
      parentOffset, gOffset := seq(TAGS, k => 0), seq(TAGS, k => 0);
      new;
      EnterTop();
    }

    lemma EnterTop()
      requires WellFormed(top) && parentOffset == seq(TAGS, k => 0)
      requires fpf == FootprintFrame(top, seq(TAGS, k requires 0 <= k < TAGS => NoIds(top.ports[k])))
      ensures Entering([])
    {
      hide WellFormed;
      TopIsHere(top);
      forall t: Tag
        ensures WalkOffset(top, t, []) == 0
      {
        WalkOffsetStart(top, t);
      }
    }

    /** The frame holds what is passed into the process at path, whose offset is known. */
    ghost predicate Entering(path: seq<nat>)
      reads this`fpf, this`parentOffset
    {
      && WellFormed(top) && PrivatePath(top, path)
      && fpf.footprint == At(top, path) && |fpf.ids| == TAGS
      && parentOffset == WalkOffsets(top, path)
      && (forall t: Tag ::
            && |fpf.ids[t]| <= At(top, path).locals[t]
            && Extended(At(top, path).locals[t], fpf.ids[t], WalkOffset(top, t, path)) == WalkContext(top, path).frame[t])
    }

    /** The frame is that of the process at path. */
    ghost predicate Within(path: seq<nat>)
      reads this`fpf, this`parentOffset
    {
      && WellFormed(top) && PrivatePath(top, path)
      && fpf == FootprintFrame(At(top, path), WalkContext(top, path).frame)
      && parentOffset == WalkOffsets(top, path)
    }

    lemma Entered(path: seq<nat>)
      requires Entering(path)
      ensures WellFormed(top) && PrivatePath(top, path) && fpf.footprint == At(top, path)
      ensures parentOffset == WalkOffsets(top, path)
    {
    }

    /** Extends the frame by the private ids of its footprint. */
    method ConstructGlobalFrame(f: Footprint, ghost path: seq<nat>) returns (lff: FootprintFrame)
      requires Entering(path) && f == At(top, path)
      ensures lff == FootprintFrame(f, WalkContext(top, path).frame)
    {
      hide WellFormed, PrivatePath, At, WalkOffset, WalkContext;
      var ids: seq<seq<nat>> := [];
      for t := 0 to TAGS
        invariant |ids| == t && forall k: Tag | k < t :: ids[k] == WalkContext(top, path).frame[k]
      {
        var idMap := FrameMap(t, f);
        ids := ids + [idMap];
      }
      lff := FootprintFrame(f, ids);
    }

    method FrameMap(t: Tag, f: Footprint) returns (idMap: seq<nat>)
      requires |fpf.ids| == TAGS && |parentOffset| == TAGS && |f.locals| == TAGS && |fpf.ids[t]| <= f.locals[t]
      ensures idMap == Extended(f.locals[t], fpf.ids[t], parentOffset[t])
    {
      idMap := ConstructGlobalContext(f.locals[t], fpf.ids[t], parentOffset[t]);
    }

    function AtTop(): bool
      reads this`fpf
    {
      top == fpf.footprint
    }

    lemma AtTopExactly(path: seq<nat>)
      requires WellFormed(top) && PrivatePath(top, path) && fpf.footprint == At(top, path)
      ensures AtTop() <==> path == []
    {
      hide WellFormed;
      SameBelow(top, path);
      TopIsHere(top);
    }

    /** Local ids past the ports are numbered from the offset of the process; at the top, all are. */
    method LookupGlobalId(lni: nat, ghost path: seq<nat>) returns (gid: nat)
      requires Within(path) && 1 <= lni <= At(top, path).locals[tag]
      ensures gid == if path == [] then lni else WalkContext(top, path).frame[tag][lni - 1]
    {
      hide WellFormed, PrivatePath, WalkContext, At, WalkOffset;
      AtTopExactly(path);
      var ports := if AtTop() then 0 else fpf.footprint.ports[tag];
      if lni <= ports {
        gid := fpf.ids[tag][lni - 1];
      } else {
        gid := parentOffset[tag] + lni - ports;
        if path == [] {
          WalkOffsetStart(top, tag);
        } else {
          WalkEntry(top, tag, path, lni);
        }
      }
    }

    /** Lists one entry; the offset is advanced past everything in a process. */
    method VisitInstance(i: nat, ghost path: seq<nat>)
      requires Within(path) && i < At(top, path).locals[tag] && (path == [] || At(top, path).ports[tag] <= i)
      requires tag == PROCESS ==> gOffset == ShownOffset(top, path, i)
      requires pid == WalkProcessId(top, path)
      modifies this`rows, this`gOffset
      ensures rows == old(rows) + [LineAt(top, tag, path, i)]
      ensures tag == PROCESS ==> gOffset == ShownOffset(top, path, i + 1)
    {
      hide WellFormed, PrivatePath, WalkContext, At, WalkOffset, WalkProcessId, ShownOffset, Total;
      if path != [] {
        WalkEntry(top, tag, path, i + 1);
      }
      var gid := LookupGlobalId(i + 1, path);
      if tag == PROCESS {
        ShownNext(top, path, i);
        var sfp := Child(fpf.footprint, i + 1);
        var af := PassedIn(fpf.footprint, i + 1, fpf.ids);
        var detail := Detail(af, gOffset, WithPrivates(gOffset, sfp), WithTotals(gOffset, sfp));
        rows := rows + [Row(gid, pid, i + 1, Some(detail))];
        gOffset := WithTotals(gOffset, sfp);
      } else {
        rows := rows + [Row(gid, pid, i + 1, None)];
      }
    }

    /** Lists the private entries of a process; at the top, the ports as well. */
    method VisitLocal(f: Footprint, isTop: bool, ghost path: seq<nat>)
      requires Entering(path) && f == At(top, path) && isTop == (top == f)
      requires pid == WalkProcessId(top, path)
      modifies this`rows, this`gOffset, this`fpf
      ensures rows == old(rows) + OwnLines(top, tag, path)
      ensures gOffset == old(gOffset) && fpf == old(fpf)
    {
      hide WellFormed, PrivatePath, WalkContext, At, WalkOffset, WalkProcessId, ShownOffset, LineAt, LineOf, Total,
        Entering, OwnLines;
      Entered(path);
      AtTopExactly(path);
      TopIsHere(top);
      var savedOffset, savedFrame := gOffset, fpf;
      var lff := ConstructGlobalFrame(f, path);
      gOffset, fpf := WithPrivates(parentOffset, f), lff;
      ShownStart(top, path);
      if isTop {
        ListTop(f);
      } else {
        ListPrivates(f, path);
      }
      gOffset, fpf := savedOffset, savedFrame;
    }

    method ListTop(f: Footprint)
      requires WellFormed(top) && f == top
      requires PrivatePath(top, []) && Within([]) && f == At(top, []) && pid == WalkProcessId(top, [])
      requires tag == PROCESS ==> gOffset == ShownOffset(top, [], 0)
      modifies this`rows, this`gOffset
      ensures rows == old(rows) + OwnLines(top, tag, [])
    {
      hide WellFormed, PrivatePath, WalkContext, At, WalkOffset, WalkProcessId, ShownOffset, LineAt;
      var i := 0;
      while i < f.locals[tag]
        invariant 0 <= i <= f.locals[tag] && Within([])
        invariant tag == PROCESS ==> gOffset == ShownOffset(top, [], i)
        invariant rows == old(rows) + TopLines(top, tag, i)
      {
        VisitInstance(i, []);
        i := i + 1;
      }
    }

    method ListPrivates(f: Footprint, ghost path: seq<nat>)
      requires path != [] && Within(path) && f == At(top, path) && pid == WalkProcessId(top, path)
      requires tag == PROCESS ==> gOffset == ShownOffset(top, path, f.ports[PROCESS])
      modifies this`rows, this`gOffset
      ensures rows == old(rows) + OwnLines(top, tag, path)
    {
      hide WellFormed, PrivatePath, WalkContext, At, WalkOffset, WalkProcessId, ShownOffset, LineAt, LineOf, Total;
      PrivatesInRange(top, tag, path);
      var i := f.ports[tag];
      while i < f.locals[tag]
        invariant f.ports[tag] <= i <= f.locals[tag] && Within(path)
        invariant tag == PROCESS ==> gOffset == ShownOffset(top, path, i)
        invariant rows == old(rows) + Lines(top, tag, WalkOffset(top, tag, path), i - f.ports[tag])
      {
        LineOfPlace(top, tag, path, i);
        VisitInstance(i, path);
        i := i + 1;
      }
    }

    /** What is below a process is listed under ids of its own, counted from its offset; then
        the count of the enclosing process goes on. */
    method VisitNested(f: Footprint, ghost path: seq<nat>)
      requires Entering(path) && f == At(top, path)
      modifies this
      ensures rows == old(rows) + NestedLines(top, tag, path, |f.procs|)
      ensures pid == old(pid) + 1
      ensures gOffset == old(gOffset) && fpf == old(fpf) && parentOffset == old(parentOffset)
      decreases f, 0, 2
    {
      hide WellFormed, PrivatePath, WalkContext, At, WalkOffset, Entering, NestedLines;
      Entered(path);
      var saved := pid;
      pid := parentOffset[PROCESS] + 1;
      VisitRecursive(f, path);
      pid := saved + 1;
    }

    /** Goes through the private subprocesses, each entered with its own frame and offset. */
    method VisitRecursive(f: Footprint, ghost path: seq<nat>)
      requires Entering(path) && f == At(top, path)
      requires pid == WalkOffset(top, PROCESS, path) + 1
      modifies this
      ensures rows == old(rows) + NestedLines(top, tag, path, |f.procs|)
      ensures gOffset == old(gOffset) && fpf == old(fpf) && parentOffset == old(parentOffset)
      decreases f, 0, 1
    {
      hide WellFormed, PrivatePath, LocalPath, WalkContext, At, WalkOffset, Entering, Within, NestedLines, NestedOffset,
        SubtreeLines, Total, Before, Between, Inside, ProcessPath;
      Entered(path);
      var savedOffset, savedFrame := parentOffset, fpf;
      var lff := ConstructGlobalFrame(f, path);
      parentOffset := WithPrivates(parentOffset, f);
      NestedStart(top, path);
      NoNestedLines(top, tag, path);
      var pi := f.ports[PROCESS];
      while pi < |f.procs|
        invariant f.ports[PROCESS] <= pi <= |f.procs| && gOffset == old(gOffset)
        invariant parentOffset == NestedOffset(top, path, pi)
        invariant pid == WalkOffset(top, PROCESS, path) + 1 + pi - f.ports[PROCESS]
        invariant rows == old(rows) + NestedLines(top, tag, path, pi)
      {
        NestedLinesNext(top, tag, path, pi + 1);
        VisitChild(f, pi + 1, lff, path);
        ghost var was, next := NestedLines(top, tag, path, pi), SubtreeLines(top, tag, path + [pi + 1]);
        assert old(rows) + was + next == old(rows) + (was + next);
        pi := pi + 1;
      }
      parentOffset, fpf := savedOffset, savedFrame;
    }

    /** Enters one subprocess, and afterwards moves the offset past everything in it. */
    method VisitChild(f: Footprint, lpid: nat, lff: FootprintFrame, ghost path: seq<nat>)
      requires WellFormed(top) && PrivatePath(top, path) && f == At(top, path)
      requires lff == FootprintFrame(f, WalkContext(top, path).frame)
      requires f.ports[PROCESS] < lpid <= |f.procs|
      requires parentOffset == NestedOffset(top, path, lpid - 1)
      requires pid == WalkOffset(top, PROCESS, path) + lpid - f.ports[PROCESS]
      modifies this
      ensures PrivatePath(top, path + [lpid]) && rows == old(rows) + SubtreeLines(top, tag, path + [lpid])
      ensures parentOffset == NestedOffset(top, path, lpid) && pid == old(pid) + 1 && gOffset == old(gOffset)
      decreases f, 0, 0
    {
      hide WellFormed, PrivatePath, WalkContext, At, WalkOffset, WalkProcessId, Entering, NestedOffset, SubtreeLines, Total;
      var sfp := Child(f, lpid);
      fpf := FootprintFrame(sfp, PassedIn(f, lpid, lff.ids));
      EnterChild(path, lpid);
      Visit(sfp, path + [lpid]);
      NestedNext(top, path, lpid);
      parentOffset := WithTotals(parentOffset, sfp);
    }

    /** A process and everything below it.  One that owns nothing of this meta-type is passed
        over, but still counted. */
    method Visit(f: Footprint, ghost path: seq<nat>)
      requires Entering(path) && f == At(top, path) && pid == WalkProcessId(top, path)
      modifies this
      ensures rows == old(rows) + SubtreeLines(top, tag, path)
      ensures pid == old(pid) + 1
      ensures gOffset == old(gOffset) && fpf == old(fpf) && parentOffset == old(parentOffset)
      decreases f, 1
    {
      hide WellFormed, PrivatePath, WalkContext, At, WalkOffset, WalkProcessId, Entering, Total, OwnLines, NestedLines,
        SubtreeLines;
      Entered(path);
      AtTopExactly(path);
      TopIsHere(top);
      SubtreeParts(top, tag, path);
      var isTop := AtTop();
      if Total(f, tag) != 0 || (isTop && f.ports[tag] != 0) {
        VisitLocal(f, isTop, path);
        VisitNested(f, path);
      } else {
        pid := pid + 1;
      }
    }

    lemma EnterChild(path: seq<nat>, lpid: nat)
      requires WellFormed(top) && PrivatePath(top, path)
      requires At(top, path).ports[PROCESS] < lpid <= |At(top, path).procs|
      requires fpf.footprint == Child(At(top, path), lpid)
      requires fpf.ids == PassedIn(At(top, path), lpid, WalkContext(top, path).frame)
      requires parentOffset == NestedOffset(top, path, lpid - 1)
      ensures PrivatePath(top, path + [lpid])
      ensures Entering(path + [lpid]) && At(top, path + [lpid]) == Child(At(top, path), lpid)
      ensures WalkProcessId(top, path + [lpid])
           == WalkOffset(top, PROCESS, path) + lpid - At(top, path).ports[PROCESS]
    {
      hide WellFormed, PrivatePath, WalkContext, At, WalkOffset, WalkProcessId, Between;
      ChildWalk(top, path, lpid);
      WalkProcessIdOfChild(top, path, lpid);
    }
  }

  /** The whole listing, from any footprint. */
  method DumpAllocation(top: Footprint, t: Tag) returns (rows: seq<Row>)
    requires WellFormed(top)
    ensures rows == Listing(top, t)
  {
    hide WellFormed, PrivatePath, WalkContext, WalkOffset, LineAt, LineOf;
    rows := [];
    if top.locals[t] + Before(top, t, |top.procs|) != 0 {
      var d := new GlobalAllocationDumper(top, t);
      TopIsHere(top);
      TopProcessId(top);
      d.Visit(top, []);
      rows := d.rows;
      assert [] + Listing(top, t) == Listing(top, t);
    }
  }
}
