/** What listings say, where they are right, and how the numbering of the traversal relates to
    that of the cache. */
module ListingMeaning {
  import opened Footprints
  import opened Numbering
  import opened Frames
  import opened Listings
  import opened Options

  // ---- what the listing says ----

  /** Below the top a line says: in the process whose id is given, the entry whose local id is
      given has the global id of the line; and a process is shown with its real offset. */
  lemma LineMeaning(top: Footprint, t: Tag, gi: nat)
    requires WellFormed(top) && Privates(top, t) <= gi < Total(Remapped(top), t)
    ensures var row, p := LineOf(top, t, gi), WalkOwner(top, t, gi);
      && p.path != [] && row.gid == gi + 1
      && row.super == WalkProcessId(top, p.path) && row.lid == p.index + 1
      && WalkContext(top, p.path).frame[t][row.lid - 1] == row.gid
      && (row.detail.Some? <==> t == PROCESS)
      && (t == PROCESS ==>
            && PrivatePath(top, p.path + [row.lid])
            && row.detail.value.own == WalkOffsets(top, p.path + [row.lid]))
  {
    hide WellFormed, PrivatePath, WalkContext, At, Offset, WalkProcessId, Total;
    var p := WalkOwner(top, t, gi);
    OwnerBelow(top, t, gi);
    WalkEntry(top, t, p.path, p.index + 1);
    if t == PROCESS {
      ShownBelow(top, p.path, p.index + 1);
    }
  }

  lemma OwnerBelow(top: Footprint, t: Tag, gi: nat)
    requires WellFormed(top) && Privates(top, t) <= gi < Total(Remapped(top), t)
    ensures var p := WalkOwner(top, t, gi);
      p.path != [] && WalkOffset(top, t, p.path) + p.index - At(top, p.path).ports[t] == gi
  {
    hide WellFormed, PrivatePath, At, Offset;
    OwnerIsOwned(Remapped(top), t, gi);
    SameBelow(top, Owner(Remapped(top), t, gi).path);
  }

  lemma ShownBelow(top: Footprint, path: seq<nat>, lpid: nat)
    requires WellFormed(top) && PrivatePath(top, path) && path != []
    requires At(top, path).ports[PROCESS] < lpid <= |At(top, path).procs|
    ensures PrivatePath(top, path + [lpid]) && ShownOffset(top, path, lpid - 1) == WalkOffsets(top, path + [lpid])
  {
    hide WellFormed, PrivatePath, At, WalkOffset, Inside;
    ChildWalk(top, path, lpid);
  }

  /** Exactly when a line of the top says the same of a private entry: there must be no ports
      of that meta-type, because the local id is taken for the global one.  And the offset
      shown for a private process is its real one exactly if the processes that are ports own
      nothing of the meta-type, because they are counted in. */
  lemma TopLineExactly(top: Footprint, t: Tag, i: nat)
    requires WellFormed(top) && top.ports[t] <= i < top.locals[t]
    ensures PrivatePath(top, []) && At(top, []) == top
    ensures var row := LineAt(top, t, [], i);
      && row.gid == row.lid == i + 1 && row.super == 0
      && (WalkContext(top, []).frame[t][row.lid - 1] == row.gid <==> top.ports[t] == 0)
      && (t == PROCESS ==>
            && PrivatePath(top, [i + 1])
            && forall u: Tag ::
                 row.detail.value.own[u] == WalkOffset(top, u, [i + 1]) <==> Between(top, u, 0, top.ports[PROCESS]) == 0)
  {
    hide WellFormed, WalkContext, WalkOffset, Total, PrivatePath, WalkProcessId, ShownOffset, Between;
    TopIsHere(top);
    TopProcessId(top);
    WalkEntry(top, t, [], i + 1);
    WalkOffsetStart(top, t);
    if t == PROCESS {
      forall u: Tag
        ensures PrivatePath(top, [i + 1])
        ensures ShownOffset(top, [], i)[u] == WalkOffset(top, u, [i + 1]) <==> Between(top, u, 0, top.ports[PROCESS]) == 0
      {
        ShownAtTop(top, u, i);
      }
      ShownAtTop(top, PROCESS, i);
    }
  }

  lemma ShownAtTop(top: Footprint, u: Tag, i: nat)
    requires WellFormed(top) && PrivatePath(top, []) && At(top, []) == top && top.ports[PROCESS] <= i < |top.procs|
    ensures PrivatePath(top, [i + 1])
    ensures ShownOffset(top, [], i)[u] == WalkOffset(top, u, [i + 1]) <==> Between(top, u, 0, top.ports[PROCESS]) == 0
  {
    hide WellFormed, PrivatePath, WalkOffset, Total;
    assert [] + [i + 1] == [i + 1];
    WalkOffsetSplit(top, u, [], i + 1);
    BetweenSplit(top, u, 0, top.ports[PROCESS], i);
  }

  /** The entries counted at the top before its private processes: those of its port processes. */
  function CountedFirst(top: Footprint, u: Tag, path: seq<nat>): nat
    requires WellFormed(top)
  {
    if path == [] then Between(top, u, 0, top.ports[PROCESS]) else 0
  }

  /** What a line shows of a private process: what its frame has for its ports, and where its
      own entries start, where they end, and where everything in it ends.  At the top the port
      processes are counted as well. */
  lemma ProcessLineMeaning(top: Footprint, path: seq<nat>, lid: nat, u: Tag)
    requires WellFormed(top) && PrivatePath(top, path)
    requires At(top, path).ports[PROCESS] < lid <= |At(top, path).procs|
    ensures PrivatePath(top, path + [lid]) && At(top, path + [lid]) == Child(At(top, path), lid)
    ensures var child := path + [lid];
      var sub, d := At(top, child), LineAt(top, PROCESS, path, lid - 1).detail.value;
      && d.ports[u] == WalkContext(top, child).frame[u][..sub.ports[u]]
      && d.own[u] == WalkOffset(top, u, child) + CountedFirst(top, u, path)
      && d.nested[u] - d.own[u] == sub.locals[u] - sub.ports[u]
      && d.end[u] - d.own[u] == Total(sub, u)
  {
    hide WellFormed, PrivatePath, At, WalkOffset, WalkContext, Total, LineAt, CountedFirst, DetailAt;
    PathSplit(top, path, lid);
    LineDetail(top, path, lid - 1);
    PassedToFrame(top, path, lid, u);
    ShownStarts(top, path, lid, u);
  }

  /** So what it shows in the middle is where its first private process starts... */
  lemma NestedShown(top: Footprint, path: seq<nat>, lid: nat, u: Tag)
    requires WellFormed(top) && PrivatePath(top, path)
    requires At(top, path).ports[PROCESS] < lid <= |At(top, path).procs|
    requires Child(At(top, path), lid).ports[PROCESS] < |Child(At(top, path), lid).procs|
    ensures var first := path + [lid] + [Child(At(top, path), lid).ports[PROCESS] + 1];
      && PrivatePath(top, first)
      && LineAt(top, PROCESS, path, lid - 1).detail.value.nested[u]
         == WalkOffset(top, u, first) + CountedFirst(top, u, path)
  {
    hide WellFormed, PrivatePath, At, WalkOffset, WalkContext, Total, LineAt, CountedFirst, DetailAt;
    ProcessLineMeaning(top, path, lid, u);
    FirstStarts(top, path + [lid], u);
  }

  /** ...and at the end where the process after it does. */
  lemma EndShown(top: Footprint, path: seq<nat>, lid: nat, u: Tag)
    requires WellFormed(top) && PrivatePath(top, path)
    requires At(top, path).ports[PROCESS] < lid < |At(top, path).procs|
    ensures PrivatePath(top, path + [lid + 1])
    ensures LineAt(top, PROCESS, path, lid - 1).detail.value.end[u]
         == WalkOffset(top, u, path + [lid + 1]) + CountedFirst(top, u, path)
  {
    hide WellFormed, PrivatePath, At, WalkOffset, WalkContext, Total, LineAt, CountedFirst, DetailAt;
    ProcessLineMeaning(top, path, lid, u);
    NextStarts(top, path, lid, u);
  }

  lemma LineDetail(top: Footprint, path: seq<nat>, i: nat)
    requires WellFormed(top) && PrivatePath(top, path) && i < |At(top, path).procs|
    requires path == [] || At(top, path).ports[PROCESS] <= i
    ensures var d, f := LineAt(top, PROCESS, path, i).detail, At(top, path);
      && d == Some(DetailAt(top, path, i))
      && d.value.ports == PassedIn(f, i + 1, WalkContext(top, path).frame)
      && d.value.own == ShownOffset(top, path, i)
      && |d.value.nested| == |d.value.end| == TAGS
      && forall u: Tag ::
           && d.value.nested[u] == d.value.own[u] + Privates(Child(f, i + 1), u)
           && d.value.end[u] == d.value.own[u] + Total(Child(f, i + 1), u)
  {
    hide WellFormed, PrivatePath, At, WalkOffset, WalkContext, Total, Between, ShownOffset, PassedIn;
  }

  lemma PassedToFrame(top: Footprint, path: seq<nat>, lid: nat, u: Tag)
    requires WellFormed(top) && PrivatePath(top, path)
    requires At(top, path).ports[PROCESS] < lid <= |At(top, path).procs|
    ensures PrivatePath(top, path + [lid])
    ensures PassedIn(At(top, path), lid, WalkContext(top, path).frame)[u]
         == WalkContext(top, path + [lid]).frame[u][..Child(At(top, path), lid).ports[u]]
  {
    hide WellFormed, PrivatePath, At, WalkOffset, WalkContext;
    WalkContextOfChild(top, path, lid);
    ConnectedAt(At(top, path), lid);
  }

  /** Where the entries of a process start, and those after it. */
  lemma ShownStarts(top: Footprint, path: seq<nat>, lid: nat, u: Tag)
    requires WellFormed(top) && PrivatePath(top, path)
    requires At(top, path).ports[PROCESS] < lid <= |At(top, path).procs|
    ensures PrivatePath(top, path + [lid])
    ensures ShownOffset(top, path, lid - 1)[u] == WalkOffset(top, u, path + [lid]) + CountedFirst(top, u, path)
  {
    hide WellFormed, PrivatePath, At, WalkOffset, Total;
    WalkOffsetSplit(top, u, path, lid);
    if path == [] {
      TopIsHere(top);
      BetweenSplit(top, u, 0, top.ports[PROCESS], lid - 1);
    }
  }

  lemma FirstStarts(top: Footprint, path: seq<nat>, u: Tag)
    requires WellFormed(top) && PrivatePath(top, path) && At(top, path).ports[PROCESS] < |At(top, path).procs|
    ensures var first := path + [At(top, path).ports[PROCESS] + 1];
      PrivatePath(top, first) && WalkOffset(top, u, first) == WalkOffset(top, u, path) + Privates(At(top, path), u)
  {
    hide WellFormed, PrivatePath, At, WalkOffset, Total;
    WalkOffsetSplit(top, u, path, At(top, path).ports[PROCESS] + 1);
  }

  lemma NextStarts(top: Footprint, path: seq<nat>, lid: nat, u: Tag)
    requires WellFormed(top) && PrivatePath(top, path)
    requires At(top, path).ports[PROCESS] < lid < |At(top, path).procs|
    ensures PrivatePath(top, path + [lid]) && PrivatePath(top, path + [lid + 1])
    ensures WalkOffset(top, u, path + [lid + 1]) == WalkOffset(top, u, path + [lid]) + Total(Child(At(top, path), lid), u)
  {
    hide WellFormed, PrivatePath, At, WalkOffset, Total;
    WalkOffsetSplit(top, u, path, lid);
    WalkOffsetSplit(top, u, path, lid + 1);
    InsideNext(At(top, path), u, lid);
  }

  /** What the lines of the top show of its processes, ports included: the first one starts
      after the private entries of the top, each one where the one before it ends, and nothing
      is known yet of what is passed in through a port of the top. */
  lemma TopProcessLine(top: Footprint, i: nat)
    requires WellFormed(top) && i < |top.procs|
    ensures PrivatePath(top, []) && At(top, []) == top && Connected(top, top.procs[i])
    ensures var row, sub := LineAt(top, PROCESS, [], i), Child(top, i + 1);
      && row.gid == row.lid == i + 1 && row.super == 0 && row.detail.Some?
      && var d := row.detail.value;
         forall u: Tag ::
           && (i == 0 ==> d.own[u] == top.locals[u] - top.ports[u])
           && (i > 0 ==> d.own[u] == LineAt(top, PROCESS, [], i - 1).detail.value.end[u])
           && d.nested[u] - d.own[u] == sub.locals[u] - sub.ports[u]
           && d.end[u] - d.own[u] == Total(sub, u)
           && |d.ports[u]| == sub.ports[u]
           && (forall k | 0 <= k < sub.ports[u] ::
                 var a := top.procs[i].actuals[u][k];
                 d.ports[u][k] == if a <= top.ports[u] then 0 else a - top.ports[u])
  {
    hide WellFormed, WalkOffset, Total, LineAt, WalkProcessId, WalkContext, ShownOffset, DetailAt, PassedIn;
    TopIsHere(top);
    ConnectedAt(top, i + 1);
    LineDetail(top, [], i);
    TopLine(top, PROCESS, i);
    if i > 0 {
      LineDetail(top, [], i - 1);
    }
    forall u: Tag
      ensures i == 0 ==> ShownOffset(top, [], i)[u] == top.locals[u] - top.ports[u]
      ensures i > 0 ==> ShownOffset(top, [], i)[u] == ShownOffset(top, [], i - 1)[u] + Total(Child(top, i), u)
      ensures PassedIn(top, i + 1, WalkContext(top, []).frame)[u]
           == Through(top.procs[i].actuals[u], WalkContext(top, []).frame[u])
      ensures var ids := WalkContext(top, []).frame[u];
        forall j | 0 <= j < |ids| :: ids[j] == if j < top.ports[u] then 0 else j + 1 - top.ports[u]
    {
      TopShown(top, i, u);
      TopFrame(top, u);
      PassedThrough(top, i, u);
    }
  }

  /** Any line of the top, ports included: the local id stands for the global one. */
  lemma TopLine(top: Footprint, t: Tag, i: nat)
    requires WellFormed(top) && i < top.locals[t]
    ensures PrivatePath(top, []) && At(top, []) == top
    ensures var row := LineAt(top, t, [], i);
      row.gid == row.lid == i + 1 && row.super == 0 && (row.detail.Some? <==> t == PROCESS)
  {
    hide WellFormed, PrivatePath, WalkProcessId;
    TopIsHere(top);
    TopProcessId(top);
  }

  lemma PassedThrough(top: Footprint, i: nat, u: Tag)
    requires WellFormed(top) && i < |top.procs| && PrivatePath(top, []) && At(top, []) == top
    ensures Connected(top, top.procs[i])
    ensures PassedIn(top, i + 1, WalkContext(top, []).frame)[u]
         == Through(top.procs[i].actuals[u], WalkContext(top, []).frame[u])
  {
    hide WellFormed, WalkContext;
    ConnectedAt(top, i + 1);
  }

  lemma TopShown(top: Footprint, i: nat, u: Tag)
    requires WellFormed(top) && i < |top.procs| && PrivatePath(top, []) && At(top, []) == top
    ensures i == 0 ==> ShownOffset(top, [], i)[u] == top.locals[u] - top.ports[u]
    ensures i > 0 ==> ShownOffset(top, [], i)[u] == ShownOffset(top, [], i - 1)[u] + Total(Child(top, i), u)
  {
    hide WellFormed, WalkOffset, Total;
    WalkOffsetStart(top, u);
  }

  lemma TopFrame(top: Footprint, u: Tag)
    requires WellFormed(top) && PrivatePath(top, []) && At(top, []) == top
    ensures var ids := WalkContext(top, []).frame[u];
      && |ids| == top.locals[u]
      && forall j | 0 <= j < |ids| :: ids[j] == if j < top.ports[u] then 0 else j + 1 - top.ports[u]
  {
    hide WellFormed, WalkOffset, PrivatePath;
  }

  predicate IdsDistinct(rows: seq<Row>) {
    forall i, j | 0 <= i < j < |rows| :: rows[i].gid != rows[j].gid
  }

  /** The ids of a listing that is not empty: 1, 2, ... for the top, and below it from the
      number of private entries of the top on. */
  lemma ListedIds(top: Footprint, t: Tag)
    requires WellFormed(top) && Listing(top, t) != []
    ensures var rows, n := Listing(top, t), top.locals[t];
      && |rows| == n + Inside(top, t, |top.procs|)
      && forall k | 0 <= k < |rows| :: rows[k].gid == if k < n then k + 1 else Privates(top, t) + k - n + 1
  {
    hide WellFormed, PrivatePath, At, Total, Inside, Between, Before, Listing, LineOf, LineAt;
    ListingAt(top, t);
    var rows, n := Listing(top, t), top.locals[t];
    forall k | 0 <= k < |rows|
      ensures rows[k].gid == if k < n then k + 1 else Privates(top, t) + k - n + 1
    {
      if k < n {
        TopGid(top, t, k);
      } else {
        NestedGid(top, t, Privates(top, t) + k - n);
      }
    }
  }

  lemma NestedGid(top: Footprint, t: Tag, gi: nat)
    requires WellFormed(top) && Privates(top, t) <= gi < Total(Remapped(top), t)
    ensures LineOf(top, t, gi).gid == gi + 1
  {
    hide WellFormed, Total, LineOf;
    LineMeaning(top, t, gi);
  }

  lemma ListingAt(top: Footprint, t: Tag)
    requires WellFormed(top) && Listing(top, t) != []
    ensures PrivatePath(top, []) && At(top, []) == top
    ensures var rows, n := Listing(top, t), top.locals[t];
      && |rows| == n + Inside(top, t, |top.procs|)
      && Total(Remapped(top), t) == Privates(top, t) + Inside(top, t, |top.procs|)
      && (forall k | 0 <= k < n :: rows[k] == LineAt(top, t, [], k))
      && (forall k | n <= k < |rows| :: rows[k] == LineOf(top, t, Privates(top, t) + k - n))
  {
    hide WellFormed, PrivatePath, Total, Inside, LineOf, LineAt;
    TopIsHere(top);
    TotalSplit(top, t);
  }

  lemma TopGid(top: Footprint, t: Tag, k: nat)
    requires WellFormed(top) && PrivatePath(top, []) && At(top, []) == top && k < top.locals[t]
    ensures LineAt(top, t, [], k).gid == k + 1
  {
    hide WellFormed, PrivatePath;
  }

  /** Exactly when no id is listed twice: the top has no ports of the meta-type, or there is
      nothing below it. */
  lemma IdsDistinctExactly(top: Footprint, t: Tag)
    requires WellFormed(top)
    ensures IdsDistinct(Listing(top, t)) <==> top.ports[t] == 0 || Inside(top, t, |top.procs|) == 0
  {
    hide WellFormed, Total, Between, TopLines, Lines;
    var rows, n := Listing(top, t), top.locals[t];
    if rows == [] {
      EmptyListing(top, t);
    } else {
      ListedIds(top, t);
      if top.ports[t] > 0 && Inside(top, t, |top.procs|) > 0 {
        assert rows[Privates(top, t)].gid == rows[n].gid;
      }
    }
  }

  lemma EmptyListing(top: Footprint, t: Tag)
    requires WellFormed(top) && Listing(top, t) == []
    ensures top.ports[t] == 0 || Inside(top, t, |top.procs|) == 0
  {
    hide WellFormed, Total;
  }

  /** Without ports the listing is 1, 2, ... up to the number of private entries in the whole
      hierarchy, unless the maps of the top count nothing while there is something. */
  lemma ListingComplete(top: Footprint, t: Tag)
    requires WellFormed(top) && top.ports[t] == 0
    ensures var rows, n := Listing(top, t), Total(Remapped(top), t);
      && (|rows| == n <==> Total(top, t) > 0 || n == 0)
      && forall k | 0 <= k < |rows| :: rows[k].gid == k + 1
  {
    hide WellFormed, Total, Between, TopLines, Lines;
    TotalSplit(top, t);
    if Listing(top, t) != [] {
      ListedIds(top, t);
    } else {
      NothingListed(top, t);
    }
  }

  /** Exactly when anything is listed. */
  lemma ListedExactly(top: Footprint, t: Tag)
    requires WellFormed(top)
    ensures Listing(top, t) != [] <==> top.ports[t] > 0 || Total(top, t) > 0
  {
    hide WellFormed, Lines;
    TotalSplit(top, t);
    if Listing(top, t) == [] && Total(top, t) > 0 {
      BeforeIsBetween(top, t, |top.procs|);
      BetweenSplit(top, t, top.ports[PROCESS], top.unmapped, |top.procs|);
    }
  }

  lemma NothingListed(top: Footprint, t: Tag)
    requires WellFormed(top) && top.ports[t] == 0 && Listing(top, t) == []
    ensures Total(top, t) == 0 || Total(Remapped(top), t) == 0
  {
    hide WellFormed, Total;
    TotalSplit(top, t);
  }

  // ---- the traversal and the cache ----

  /** Exactly when the cache gives a process of a module the offset that the traversal gives
      it: the processes before it that are not in the maps own nothing of the meta-type. */
  lemma CacheOffsetExactly(top: Footprint, t: Tag, path: seq<nat>)
    requires Top(top) && PrivatePath(top, path) && path != []
    ensures ContextAt(top, path).offset[t] == WalkOffset(top, t, path)
            <==> Between(top, t, 0, if path[0] <= top.unmapped then path[0] - 1 else top.unmapped) == 0
  {
    hide WellFormed, PrivatePath, ContextAt, Offset, Total;
    OffsetsCompose(top, t, path);
    OffsetsAgreeExactly(top, t, path);
  }

  /** The entries of the processes left out of the maps before a process or around it. */
  function LeftOut(top: Footprint, t: Tag, path: seq<nat>): nat
    requires WellFormed(top) && path != []
  {
    Between(top, t, 0, if path[0] <= top.unmapped then path[0] else top.unmapped)
  }

  predicate DecodesTo(top: Footprint, gpid: nat, path: seq<nat>)
    requires WellFormed(top)
  {
    1 <= gpid <= Processes(top) && Decode(top, gpid) == path
  }

  /** Exactly when the cache decodes the id that the traversal gives a process of a module to
      that process: it is local to the top, or no process that the maps leave out, before it or
      around it, has processes of its own. */
  lemma WalkIdDecodesExactly(top: Footprint, path: seq<nat>)
    requires Top(top) && ProcessPath(top, path)
    ensures DecodesTo(top, WalkProcessId(top, path), path) <==> |path| == 1 || LeftOut(top, PROCESS, path) == 0
  {
    hide WellFormed, PrivatePath, Total, Decode, Processes, WalkProcessId, DecodesTo;
    if |path| == 1 {
      LocalIdDecodes(top, path);
    } else if path[0] > top.unmapped {
      MappedIdDecodesExactly(top, path);
    } else {
      UnmappedIdNeverDecodes(top, path);
    }
  }

  lemma LocalIdDecodes(top: Footprint, path: seq<nat>)
    requires Top(top) && ProcessPath(top, path) && |path| == 1
    ensures DecodesTo(top, WalkProcessId(top, path), path)
  {
    hide WellFormed, Decode, Processes, ProcessId, Offset;
    DecodeEncode(top, path);
    WalkIdIsOffset(top, path);
    assert path[..0] == [];
    OffsetOfTop(top, PROCESS);
    WalkOffsetStart(top, PROCESS);
  }

  /** The two ids of a process, from the two offsets of the one it is in. */
  lemma WalkIdIsOffset(top: Footprint, path: seq<nat>)
    requires Top(top) && ProcessPath(top, path)
    ensures var parent := path[..|path| - 1];
      && PrivatePath(top, parent)
      && ProcessId(top, path) - Offset(top, PROCESS, parent)
         == WalkProcessId(top, path) - WalkOffset(top, PROCESS, parent)
  {
    hide WellFormed, PrivatePath, At, Offset;
    var parent, last := path[..|path| - 1], path[|path| - 1];
    assert path == parent + [last];
    PathSplit(top, parent, last);
    SameBelow(top, path);
    SameBelow(top, parent);
    TopIsHere(top);
    ProcessPathIsOwned(top, path);
    ProcessPathIsOwned(Remapped(top), path);
  }

  lemma MappedIdDecodesExactly(top: Footprint, path: seq<nat>)
    requires Top(top) && ProcessPath(top, path) && |path| > 1 && path[0] > top.unmapped
    ensures DecodesTo(top, WalkProcessId(top, path), path) <==> LeftOut(top, PROCESS, path) == 0
  {
    hide WellFormed, PrivatePath, Total, Offset, Decode, Processes, ProcessId, WalkProcessId;
    var parent := path[..|path| - 1];
    DecodeEncode(top, path);
    WalkIdIsOffset(top, path);
    SameBelow(top, parent);
    OffsetsAgreeExactly(top, PROCESS, parent);
    var gpid := WalkProcessId(top, path);
    if DecodesTo(top, gpid, path) {
      EncodeDecode(top, gpid);
    }
  }

  lemma UnmappedIdNeverDecodes(top: Footprint, path: seq<nat>)
    requires Top(top) && ProcessPath(top, path) && |path| > 1 && path[0] <= top.unmapped
    ensures forall gpid: nat :: !DecodesTo(top, gpid, path)
    ensures LeftOut(top, PROCESS, path) > 0
  {
    hide WellFormed, Total, At, Decode, Processes;
    forall gpid: nat
      ensures !DecodesTo(top, gpid, path)
    {
      if DecodesTo(top, gpid, path) {
        DecodedIsMapped(top, gpid);
      }
    }
    ProcessPathIsOwned(top, path);
    OwnedBelow(top, PROCESS, PlaceOf(path));
    InBetween(top, PROCESS, 0, path[0], path[0]);
  }

  /** What a line of a module says, in terms of the cache, exactly.  The id of the enclosing
      process decodes to that process if and only if it is local to the top, or none that the
      maps leave out, before it or around it, has processes of its own.  The context of that
      process maps the local id of the line to its global id if and only if none that the maps
      leave out before it owns anything of the meta-type. */
  lemma LineDecodes(top: Footprint, t: Tag, gi: nat)
    requires Top(top) && Privates(top, t) <= gi < Total(Remapped(top), t)
    ensures var row, path := LineOf(top, t, gi), WalkOwner(top, t, gi).path;
      && path != []
      && (DecodesTo(top, row.super, path) <==> |path| == 1 || LeftOut(top, PROCESS, path) == 0)
      && (ContextAt(top, path).frame[t][row.lid - 1] == row.gid
          <==> Between(top, t, 0, if path[0] <= top.unmapped then path[0] - 1 else top.unmapped) == 0)
  {
    hide WellFormed, PrivatePath, LocalPath, ContextAt, WalkContext, At, Offset, WalkOffset, WalkProcessId, WalkOwner, LineOf,
      Total, DecodesTo, LeftOut, Resolve;
    LineMeaning(top, t, gi);
    var p := WalkOwner(top, t, gi);
    OwnerBelow(top, t, gi);
    WalkIdDecodesExactly(top, p.path);
    OffsetsCompose(top, t, p.path);
    FramesCompose(top, t, p.path, p.index + 1);
    PrivateEntryResolves(top, t, p.path, p.index + 1 - At(top, p.path).ports[t]);
    CacheOffsetExactly(top, t, p.path);
  }

  // ---- a type with a port, and a module whose maps are not complete ----

  /** A type with a bool port, a private bool, and a process with a private bool. */
  function PortType(): Footprint {
    Footprint([0, 0, 0, 0, 1], [1, 0, 0, 0, 2], 0, [Instance(NoActuals(), WithBool())])
  }

  /** Its own private bool and that of its process are both listed with id 2. */
  lemma TwiceListedExample()
    ensures WellFormed(PortType())
    ensures var rows := Listing(PortType(), 4);
      |rows| == 3 && rows[1].super == 0 && rows[1].gid == 2 && rows[2].gid == 2
  {
    hide WellFormed, LineAt, Lines, LineOf;
    var top := PortType();
    WithPortShape();
    PortTypeShape();
    assert Child(top, 1) == WithBool() && Total(WithBool(), 4) == 1;
    assert Inside(top, 4, 0) == 0 && Inside(top, 4, 1) == 1;
    TotalSplit(top, 4);
    ListedIds(top, 4);
    TopLineExactly(top, 4, 1);
  }

  lemma PortTypeShape()
    requires WellFormed(WithBool())
    ensures WellFormed(PortType())
  {
    assert Connected(PortType(), PortType().procs[0]);
  }

  /** A type with a process port that owns a process, and a private process. */
  function PortAndPrivate(): Footprint {
    Footprint([1, 0, 0, 0, 0], [2, 0, 0, 0, 0], 1, [Instance(NoActuals(), Owning()), Instance(NoActuals(), Leaf())])
  }

  lemma PortAndPrivateShape()
    ensures WellFormed(Owning()) && WellFormed(PortAndPrivate()) && Allocated(PortAndPrivate())
  {
    hide WellFormed;
    OwningShape();
    assert Connected(PortAndPrivate(), PortAndPrivate().procs[0]) && Connected(PortAndPrivate(), PortAndPrivate().procs[1]);
    TwoProcesses(PortAndPrivate());
  }

  /** A type with a process port and a private process, each with a process of its own. */
  function PortAndOwning(): Footprint {
    Footprint([1, 0, 0, 0, 0], [2, 0, 0, 0, 0], 1, [Instance(NoActuals(), Owning()), Instance(NoActuals(), Owning())])
  }

  lemma PortAndOwningShape()
    ensures WellFormed(Owning()) && WellFormed(PortAndOwning()) && Allocated(PortAndOwning())
  {
    hide WellFormed;
    OwningShape();
    assert Connected(PortAndOwning(), PortAndOwning().procs[0]) && Connected(PortAndOwning(), PortAndOwning().procs[1]);
    TwoProcesses(PortAndOwning());
  }

  /** As a module, the traversal gives the process in its first process the id 3, which the
      cache takes for the one in its second process. */
  lemma StaleIdExample()
    ensures WellFormed(PortAndOwning()) && Allocated(PortAndOwning())
    ensures var top := Cleared(PortAndOwning());
      && ProcessPath(top, [1, 1]) && WalkProcessId(top, [1, 1]) == 3
      && Processes(top) == 3 && Decode(top, 3) == [2, 1]
  {
    hide WellFormed, Total, WalkOffset, Offset, DecodeFrom;
    PortAndOwningShape();
    var top := Cleared(PortAndOwning());
    assert Child(top, 1) == Child(top, 2) == Owning();
    OwningTotal();
    assert Before(top, PROCESS, 1) == 0 && Before(top, PROCESS, 2) == 1;
    assert [1, 1][1..] == [1] && [2, 1][1..] == [1] && [1][1..] == [];
    assert PrivatePath(Owning(), [1]) && PrivatePath(top, [1, 1]) && PrivatePath(top, [2, 1]);
    StaleIds(top);
    DecodeEncode(top, [2, 1]);
  }

  lemma StaleIds(top: Footprint)
    requires WellFormed(PortAndOwning()) && top == Cleared(PortAndOwning())
    requires PrivatePath(top, [1, 1]) && PrivatePath(top, [2, 1]) && Before(top, PROCESS, 1) == 0
    ensures WalkProcessId(top, [1, 1]) == 3 && ProcessId(top, [2, 1]) == 3
  {
    hide WellFormed, Total;
    assert Child(top, 1) == Child(top, 2) == Owning();
    assert [1] + [1] == [1, 1] && [2, 1][..1] == [2] && [] + [1] == [1] && [2][1..] == [];
    PathSplit(top, [1], 1);
    TopIsHere(top);
    WalkOffsetStart(top, PROCESS);
    WalkOffsetSplit(top, PROCESS, [], 1);
    WalkProcessIdOfChild(top, [1], 1);
    OffsetOfTop(Owning(), PROCESS);
    ProcessPathIsOwned(top, [2, 1]);
  }

  lemma OwningTotal()
    requires WellFormed(Owning())
    ensures Total(Owning(), PROCESS) == 1
  {
    assert Child(Owning(), 1) == Leaf();
  }

  /** As a module, its second process is given different offsets by cache and traversal. */
  lemma StaleOffsetExample()
    ensures WellFormed(PortAndPrivate()) && Allocated(PortAndPrivate())
    ensures var top := Cleared(PortAndPrivate());
      PrivatePath(top, [2]) && ContextAt(top, [2]).offset[PROCESS] != WalkOffset(top, PROCESS, [2])
  {
    hide WellFormed, ContextAt, WalkOffset;
    PortAndPrivateShape();
    var top := Cleared(PortAndPrivate());
    assert Child(top, 1) == Owning() && Total(Owning(), PROCESS) == 1;
    assert Between(top, PROCESS, 0, 0) == 0 && Between(top, PROCESS, 0, 1) == 1;
    assert [2][1..] == [];
    CacheOffsetExactly(top, PROCESS, [2]);
  }
}
