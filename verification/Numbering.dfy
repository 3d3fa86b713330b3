/** Global numbering of everything that a footprint owns, directly or through subprocesses.

    A process first numbers its own private entries; the blocks of its private
    subprocesses follow in order.  A place is named by the path of (1-based) process ids
    leading to the owner, and a (0-based) index into the owner's pool. */
module Numbering {
  import opened Footprints

  datatype Place = Place(path: seq<nat>, index: nat)

  /** Every step goes to a process of the pool. */
  predicate LocalPath(f: Footprint, path: seq<nat>)
    requires WellFormed(f)
    decreases |path|
  {
    path == [] || (1 <= path[0] <= |f.procs| && LocalPath(Child(f, path[0]), path[1..]))
  }

  /** Every step goes to a private process. */
  predicate PrivatePath(f: Footprint, path: seq<nat>): (b: bool)
    requires WellFormed(f)
    ensures b ==> LocalPath(f, path)
    decreases |path|
  {
    path == [] || (f.ports[PROCESS] < path[0] <= |f.procs| && PrivatePath(Child(f, path[0]), path[1..]))
  }

  /** A private path that starts with a process in the maps of f.  Further down the maps have
      every private process. */
  predicate MappedPath(f: Footprint, path: seq<nat>): (b: bool)
    requires WellFormed(f)
    ensures b ==> PrivatePath(f, path)
    ensures Allocated(f) ==> b == PrivatePath(f, path)
  {
    PrivatePath(f, path) && (path == [] || f.unmapped < path[0])
  }

  function At(f: Footprint, path: seq<nat>): (g: Footprint)
    requires WellFormed(f) && LocalPath(f, path)
    ensures WellFormed(g) && (path != [] ==> g < f && Allocated(g))
    decreases |path|
  {
    if path == [] then f else At(Child(f, path[0]), path[1..])
  }

  ghost predicate Owned(f: Footprint, t: Tag, p: Place)
    requires WellFormed(f)
  {
    PrivatePath(f, p.path) && At(f, p.path).ports[t] <= p.index < At(f, p.path).locals[t]
  }

  /** How many entries are numbered before the private entries of the process at path. */
  function Offset(f: Footprint, t: Tag, path: seq<nat>): nat
    requires WellFormed(f) && PrivatePath(f, path)
    decreases |path|
  {
    if path == [] then 0
    else Privates(f, t) + Before(f, t, path[0] - 1) + Offset(Child(f, path[0]), t, path[1..])
  }

  /** Encoding: the (0-based) global index of a place. */
  function GlobalIndex(f: Footprint, t: Tag, p: Place): nat
    requires WellFormed(f) && Owned(f, t, p)
  {
    Offset(f, t, p.path) + (p.index - At(f, p.path).ports[t])
  }

  /** Decoding: the owner of a (0-based) global index. */
  function Owner(f: Footprint, t: Tag, gi: nat): Place
    requires WellFormed(f) && gi < Total(f, t)
    decreases f
  {
    if gi < Privates(f, t) then Place([], gi + f.ports[t])
    else
      var si := gi - Privates(f, t);
      LocatePrivateEntryCorrect(f, t, si);
      var e := LocatePrivateEntry(f, t, si);
      var sub := Owner(Child(f, e.index), t, si - e.lower);
      Place([e.index] + sub.path, sub.index)
  }

  lemma {:induction false} OwnerIsOwned(f: Footprint, t: Tag, gi: nat)
    requires WellFormed(f) && gi < Total(f, t)
    ensures Owned(f, t, Owner(f, t, gi)) && GlobalIndex(f, t, Owner(f, t, gi)) == gi
    ensures MappedPath(f, Owner(f, t, gi).path)
    decreases f, 1
  {
    hide LocatePrivateEntry, WellFormed;
    if gi >= Privates(f, t) {
      OwnerInSubprocess(f, t, gi);
    }
  }

  lemma {:induction false} OwnerInSubprocess(f: Footprint, t: Tag, gi: nat)
    requires WellFormed(f) && Privates(f, t) <= gi < Total(f, t)
    ensures Owned(f, t, Owner(f, t, gi)) && GlobalIndex(f, t, Owner(f, t, gi)) == gi
    ensures MappedPath(f, Owner(f, t, gi).path)
    decreases f, 0
  {
    hide LocatePrivateEntry, WellFormed, PrivatePath, MappedPath, At, Offset, Owned, GlobalIndex, Before;
    var si := gi - Privates(f, t);
    LocatePrivateEntryCorrect(f, t, si);
    var e := LocatePrivateEntry(f, t, si);
    OwnerIsOwned(Child(f, e.index), t, si - e.lower);
    PlaceBelow(f, t, e.index, Owner(Child(f, e.index), t, si - e.lower));
  }

  /** A place in a subprocess, seen from the enclosing process. */
  lemma PlaceBelow(f: Footprint, t: Tag, l: nat, p: Place)
    requires WellFormed(f) && f.unmapped < l <= |f.procs| && Owned(Child(f, l), t, p)
    ensures var q := Place([l] + p.path, p.index);
      && MappedPath(f, q.path) && Owned(f, t, q)
      && GlobalIndex(f, t, q) == Privates(f, t) + Before(f, t, l - 1) + GlobalIndex(Child(f, l), t, p)
  {
    hide WellFormed, Before;
    assert ([l] + p.path)[1..] == p.path;
  }

  /** The entries of the process at path lie inside the total. */
  lemma {:induction false} OffsetInRange(f: Footprint, t: Tag, path: seq<nat>)
    requires WellFormed(f) && MappedPath(f, path)
    ensures Offset(f, t, path) + Total(At(f, path), t) <= Total(f, t)
    decreases |path|
  {
    hide WellFormed;
    if path != [] {
      OffsetInRange(Child(f, path[0]), t, path[1..]);
      BeforeMonotone(f, t, path[0], |f.procs|);
    }
  }

  /** Two processes in the maps own disjoint blocks. */
  lemma BlocksDisjoint(f: Footprint, t: Tag, a: nat, b: nat)
    requires WellFormed(f) && f.unmapped < a < b <= |f.procs|
    ensures Before(f, t, a - 1) + Total(Child(f, a), t) <= Before(f, t, b - 1)
  {
    hide WellFormed;
    BeforeMonotone(f, t, a, b - 1);
  }

  lemma {:induction false} OwnerOfGlobalIndex(f: Footprint, t: Tag, p: Place)
    requires WellFormed(f) && Owned(f, t, p) && MappedPath(f, p.path)
    ensures GlobalIndex(f, t, p) < Total(f, t) && Owner(f, t, GlobalIndex(f, t, p)) == p
    decreases |p.path|
  {
    hide WellFormed, LocatePrivateEntry, Before;
    OffsetInRange(f, t, p.path);
    if p.path != [] {
      var a, rest := p.path[0], Place(p.path[1..], p.index);
      var gi := GlobalIndex(f, t, p);
      OwnerOfGlobalIndex(Child(f, a), t, rest);
      var si := gi - Privates(f, t);
      BlockFound(f, t, a, si);
      assert [a] + p.path[1..] == p.path;
    }
  }

  lemma BlockWithin(f: Footprint, t: Tag, a: nat)
    requires WellFormed(f) && f.unmapped < a <= |f.procs|
    ensures Before(f, t, a - 1) + Total(Child(f, a), t) <= Before(f, t, |f.procs|)
  {
    hide WellFormed, Total;
    BeforeMonotone(f, t, a, |f.procs|);
  }

  /** An entry number in the block of a process is found there. */
  lemma BlockFound(f: Footprint, t: Tag, a: nat, li: nat)
    requires WellFormed(f) && f.unmapped < a <= |f.procs|
    requires Before(f, t, a - 1) <= li < Before(f, t, a - 1) + Total(Child(f, a), t)
    ensures UpperBound(PrivateMap(f, t), li) > 0
    ensures LocatePrivateEntry(f, t, li).index == a && LocatePrivateEntry(f, t, li).lower == Before(f, t, a - 1)
  {
    hide WellFormed, LocatePrivateEntry, PrivateMap, Total, Before;
    BlockWithin(f, t, a);
    LocatePrivateEntryCorrect(f, t, li);
    var e := LocatePrivateEntry(f, t, li);
    if e.index < a {
      BlocksDisjoint(f, t, e.index, a);
    } else if a < e.index {
      BlocksDisjoint(f, t, a, e.index);
    }
  }

  // ---- conservation ----

  /** The private processes left out of the maps own nothing of this meta-type. */
  predicate Complete(f: Footprint, t: Tag)
    requires WellFormed(f)
  {
    Between(f, t, f.ports[PROCESS], f.unmapped) == 0
  }

  lemma {:induction false} InBetween(f: Footprint, t: Tag, from: nat, l: nat, n: nat)
    requires WellFormed(f) && from < l <= n <= |f.procs|
    ensures Total(Child(f, l), t) <= Between(f, t, from, n)
    decreases n
  {
    hide WellFormed, Total;
    if l < n {
      InBetween(f, t, from, l, n - 1);
    }
  }

  lemma {:induction false} SomeBetween(f: Footprint, t: Tag, from: nat, n: nat) returns (l: nat)
    requires WellFormed(f) && n <= |f.procs| && Between(f, t, from, n) > 0
    ensures from < l <= n && Total(Child(f, l), t) > 0
    decreases n
  {
    hide WellFormed, Total;
    l := n;
    if Total(Child(f, n), t) == 0 {
      l := SomeBetween(f, t, from, n - 1);
    }
  }

  /** With complete maps every place is reached through them. */
  lemma OwnedIsMapped(f: Footprint, t: Tag, p: Place)
    requires WellFormed(f) && Complete(f, t) && Owned(f, t, p)
    ensures MappedPath(f, p.path)
  {
    hide WellFormed, Total, Before, At, Owner, Offset;
    if p.path != [] && p.path[0] <= f.unmapped {
      OwnedBelow(f, t, p);
      InBetween(f, t, f.ports[PROCESS], p.path[0], f.unmapped);
    }
  }

  lemma OwnedBelow(f: Footprint, t: Tag, p: Place)
    requires WellFormed(f) && Owned(f, t, p) && p.path != []
    ensures Total(Child(f, p.path[0]), t) > 0
  {
    hide WellFormed, Owner, Before;
    OwnerOfGlobalIndex(Child(f, p.path[0]), t, Place(p.path[1..], p.index));
  }

  /** Without, some place is not. */
  lemma LostPlace(f: Footprint, t: Tag) returns (p: Place)
    requires WellFormed(f) && !Complete(f, t)
    ensures Owned(f, t, p) && !MappedPath(f, p.path)
  {
    hide WellFormed, Owner, Total;
    var l := SomeBetween(f, t, f.ports[PROCESS], f.unmapped);
    OwnerIsOwned(Child(f, l), t, 0);
    var o := Owner(Child(f, l), t, 0);
    p := Place([l] + o.path, o.index);
    assert p.path[1..] == o.path;
  }

  /** Whether an index below the total, and no other, lies in the private range of a process,
      and of one process only. */
  ghost predicate Conserved(f: Footprint, t: Tag, gi: nat)
    requires WellFormed(f)
  {
    && (gi < Total(f, t) <==> exists path :: InRangeOf(f, t, path, gi))
    && (forall p, q :: InRangeOf(f, t, p, gi) && InRangeOf(f, t, q, gi) ==> p == q)
  }

  /** Conservation of index space: the ranges of private indices, one per process of the
      hierarchy, cover 0..Total and do not overlap. */
  lemma IndexSpaceConserved(f: Footprint, t: Tag, gi: nat)
    requires WellFormed(f) && Complete(f, t)
    ensures Conserved(f, t, gi)
  {
    hide WellFormed, Complete, MappedPath;
    if gi < Total(f, t) {
      OwnerIsOwned(f, t, gi);
      assert InRangeOf(f, t, Owner(f, t, gi).path, gi);
    }
    forall path | InRangeOf(f, t, path, gi)
      ensures gi < Total(f, t) && path == Owner(f, t, gi).path
    {
      var p := Place(path, gi - Offset(f, t, path) + At(f, path).ports[t]);
      OwnedIsMapped(f, t, p);
      OwnerOfGlobalIndex(f, t, p);
    }
  }

  /** Exactly when index space is conserved. */
  lemma IndexSpaceConservedExactly(f: Footprint, t: Tag)
    requires WellFormed(f)
    ensures (forall gi :: Conserved(f, t, gi)) <==> Complete(f, t)
  {
    hide WellFormed, Complete, Conserved, MappedPath;
    if Complete(f, t) {
      forall gi
        ensures Conserved(f, t, gi)
      {
        IndexSpaceConserved(f, t, gi);
      }
    } else {
      var p := LostPlace(f, t);
      LostIsNotConserved(f, t, p);
    }
  }

  lemma LostIsNotConserved(f: Footprint, t: Tag, p: Place)
    requires WellFormed(f) && Owned(f, t, p) && !MappedPath(f, p.path)
    ensures !Conserved(f, t, GlobalIndex(f, t, p))
  {
    hide WellFormed, PrivatePath, MappedPath, At, Offset, Owner;
    var gi := GlobalIndex(f, t, p);
    assert InRangeOf(f, t, p.path, gi);
    if gi < Total(f, t) {
      OwnerIsOwned(f, t, gi);
      assert InRangeOf(f, t, Owner(f, t, gi).path, gi);
    }
  }

  ghost predicate InRangeOf(f: Footprint, t: Tag, path: seq<nat>, gi: nat)
    requires WellFormed(f)
  {
    PrivatePath(f, path) && Offset(f, t, path) <= gi < Offset(f, t, path) + Privates(At(f, path), t)
  }

  // ---- the order of processes ----

  /** The order in which processes are numbered: an enclosing process first, then its
      subprocesses in turn. */
  predicate Precedes(p: seq<nat>, q: seq<nat>) {
    q != [] && (p == [] || p[0] < q[0] || (p[0] == q[0] && Precedes(p[1..], q[1..])))
  }

  lemma {:induction false} OneOrder(p: seq<nat>, q: seq<nat>)
    ensures p == q || Precedes(p, q) || Precedes(q, p)
  {
    if p != [] && q != [] && p[0] == q[0] {
      OneOrder(p[1..], q[1..]);
      assert p == [p[0]] + p[1..] && q == [q[0]] + q[1..];
    }
  }

  lemma {:induction false} PrecedesOffset(f: Footprint, t: Tag, p: seq<nat>, q: seq<nat>)
    requires WellFormed(f) && MappedPath(f, p) && MappedPath(f, q) && Precedes(p, q)
    ensures Offset(f, t, p) + Privates(At(f, p), t) <= Offset(f, t, q)
    decreases |p|
  {
    hide WellFormed;
    if p != [] {
      if p[0] < q[0] {
        OffsetInRange(Child(f, p[0]), t, p[1..]);
        BlocksDisjoint(f, t, p[0], q[0]);
      } else {
        PrecedesOffset(Child(f, p[0]), t, p[1..], q[1..]);
      }
    }
  }

  /** Places are numbered in the order of their processes, and in order within a process. */
  lemma PlacesAscend(f: Footprint, t: Tag, p: Place, q: Place)
    requires WellFormed(f) && Owned(f, t, p) && MappedPath(f, p.path) && Owned(f, t, q) && MappedPath(f, q.path)
    requires Precedes(p.path, q.path) || (p.path == q.path && p.index < q.index)
    ensures GlobalIndex(f, t, p) < GlobalIndex(f, t, q)
  {
    hide WellFormed, PrivatePath, MappedPath, At, Offset, Precedes;
    if Precedes(p.path, q.path) {
      PrecedesOffset(f, t, p.path, q.path);
    }
  }

  /** Nothing of the meta-type is owned from p on and before q. */
  ghost predicate NothingFrom(f: Footprint, t: Tag, p: seq<nat>, q: seq<nat>)
    requires WellFormed(f)
  {
    forall o: Place :: Owned(f, t, o) && MappedPath(f, o.path) ==> Precedes(o.path, p) || !Precedes(o.path, q)
  }

  /** Exactly when a process and another one, which owns something, have the same offset. */
  lemma SameOffsetExactly(f: Footprint, t: Tag, p: seq<nat>, q: seq<nat>)
    requires WellFormed(f) && MappedPath(f, p) && MappedPath(f, q) && p != q && Privates(At(f, q), t) > 0
    ensures Offset(f, t, p) == Offset(f, t, q) <==> Precedes(p, q) && NothingFrom(f, t, p, q)
  {
    hide WellFormed, PrivatePath, Total, At, Offset, Precedes;
    OneOrder(p, q);
    if Precedes(q, p) {
      PrecedesOffset(f, t, q, p);
      if Precedes(p, q) {
        PrecedesOffset(f, t, p, q);
      }
    } else if Offset(f, t, p) == Offset(f, t, q) {
      NothingWhereSame(f, t, p, q);
    } else {
      var o := SomethingWhereNot(f, t, p, q);
    }
  }

  lemma NothingWhereSame(f: Footprint, t: Tag, p: seq<nat>, q: seq<nat>)
    requires WellFormed(f) && MappedPath(f, p) && MappedPath(f, q) && Offset(f, t, p) == Offset(f, t, q)
    ensures NothingFrom(f, t, p, q)
  {
    hide WellFormed, PrivatePath, At, Offset, Precedes;
    forall o: Place | Owned(f, t, o) && MappedPath(f, o.path)
      ensures Precedes(o.path, p) || !Precedes(o.path, q)
    {
      OneOrder(o.path, p);
      if Precedes(o.path, q) && !Precedes(o.path, p) {
        PrecedesOffset(f, t, o.path, q);
        if o.path != p {
          PrecedesOffset(f, t, p, o.path);
        }
      }
    }
  }

  lemma SomethingWhereNot(f: Footprint, t: Tag, p: seq<nat>, q: seq<nat>) returns (o: Place)
    requires WellFormed(f) && MappedPath(f, p) && MappedPath(f, q) && Precedes(p, q)
    requires Offset(f, t, p) != Offset(f, t, q)
    ensures Owned(f, t, o) && MappedPath(f, o.path) && !Precedes(o.path, p) && Precedes(o.path, q)
  {
    hide WellFormed, PrivatePath, At, Offset, Precedes, Owner, Total;
    PrecedesOffset(f, t, p, q);
    OffsetInRange(f, t, q);
    OwnerIsOwned(f, t, Offset(f, t, p));
    o := Owner(f, t, Offset(f, t, p));
    if Precedes(o.path, p) {
      PrecedesOffset(f, t, o.path, p);
    }
    OneOrder(o.path, q);
    if Precedes(q, o.path) {
      PrecedesOffset(f, t, q, o.path);
    }
  }

  // ---- process ids ----

  /** A private process other than the top. */
  ghost predicate ProcessPath(f: Footprint, path: seq<nat>)
    requires WellFormed(f)
  {
    path != [] && PrivatePath(f, path)
  }

  /** The global process ids that a lookup may be asked for are 1..Processes(f). */
  function Processes(f: Footprint): nat
    requires WellFormed(f)
  {
    f.locals[PROCESS] + Before(f, PROCESS, |f.procs|)
  }

  /** The decoding loop, from a footprint with `local` ids of its own: ids up to `local` are
      entries of f, any other belongs to the subprocess that LocatePrivateEntry finds. */
  function DecodeFrom(f: Footprint, local: nat, gpid: nat): (path: seq<nat>)
    requires WellFormed(f) && 1 <= gpid <= local + Before(f, PROCESS, |f.procs|)
    ensures path != []
    decreases f
  {
    if gpid <= local then [gpid + f.ports[PROCESS]]
    else
      LocatePrivateEntryCorrect(f, PROCESS, gpid - local - 1);
      var e := LocatePrivateEntry(f, PROCESS, gpid - local - 1);
      var sub := Child(f, e.index);
      [e.index] + DecodeFrom(sub, Privates(sub, PROCESS), gpid - local - e.lower)
  }

  /** At the top every local entry is counted, ports included. */
  function Decode(top: Footprint, gpid: nat): seq<nat>
    requires WellFormed(top) && 1 <= gpid <= Processes(top)
  {
    DecodeFrom(top, top.locals[PROCESS], gpid)
  }

  lemma {:induction false} DecodeFromIsOwner(f: Footprint, gpid: nat)
    requires WellFormed(f) && 1 <= gpid <= Total(f, PROCESS)
    ensures var o := Owner(f, PROCESS, gpid - 1);
      DecodeFrom(f, Privates(f, PROCESS), gpid) == o.path + [o.index + 1]
    decreases f
  {
    hide LocatePrivateEntry, WellFormed;
    var local := Privates(f, PROCESS);
    if gpid > local {
      LocatePrivateEntryCorrect(f, PROCESS, gpid - local - 1);
      var e := LocatePrivateEntry(f, PROCESS, gpid - local - 1);
      DecodeFromIsOwner(Child(f, e.index), gpid - local - e.lower);
    }
  }

  lemma {:induction false} PathSplit(f: Footprint, path: seq<nat>, last: nat)
    requires WellFormed(f)
    ensures LocalPath(f, path + [last]) <==> LocalPath(f, path) && 1 <= last <= |At(f, path).procs|
    ensures PrivatePath(f, path + [last]) <==>
            PrivatePath(f, path) && At(f, path).ports[PROCESS] < last <= |At(f, path).procs|
    ensures LocalPath(f, path + [last]) ==> At(f, path + [last]) == Child(At(f, path), last)
    decreases |path|
  {
    hide WellFormed;
    if path != [] {
      assert (path + [last])[1..] == path[1..] + [last] && (path + [last])[0] == path[0];
      if 1 <= path[0] <= |f.procs| {
        PathSplit(Child(f, path[0]), path[1..], last);
      }
    } else {
      assert ([last])[1..] == [];
    }
  }

  function PlaceOf(path: seq<nat>): Place
    requires path != [] && path[|path| - 1] > 0
  {
    Place(path[..|path| - 1], path[|path| - 1] - 1)
  }

  lemma ProcessPathIsOwned(f: Footprint, path: seq<nat>)
    requires WellFormed(f) && path != []
    ensures ProcessPath(f, path) <==> path[|path| - 1] > 0 && Owned(f, PROCESS, PlaceOf(path))
  {
    hide WellFormed;
    PathSplit(f, path[..|path| - 1], path[|path| - 1]);
    assert path[..|path| - 1] + [path[|path| - 1]] == path;
  }

  /** Encoding of a process: its (1-based) global id. */
  function ProcessId(f: Footprint, path: seq<nat>): nat
    requires WellFormed(f) && ProcessPath(f, path)
  {
    ProcessPathIsOwned(f, path);
    GlobalIndex(f, PROCESS, PlaceOf(path)) + 1
  }

  /** Decoding an id yields a private process, and encoding that gives the id back. */
  lemma EncodeDecode(top: Footprint, gpid: nat)
    requires WellFormed(top) && top.ports[PROCESS] == 0 && 1 <= gpid <= Processes(top)
    ensures ProcessPath(top, Decode(top, gpid)) && ProcessId(top, Decode(top, gpid)) == gpid
  {
    hide WellFormed, Owner, DecodeFrom, Before, PrivatePath, At, Offset, GlobalIndex;
    DecodeFromIsOwner(top, gpid);
    OwnerIsOwned(top, PROCESS, gpid - 1);
    var o := Owner(top, PROCESS, gpid - 1);
    assert PlaceOf(o.path + [o.index + 1]) == o;
    ProcessPathIsOwned(top, o.path + [o.index + 1]);
  }

  /** Encoding a process that is local to the top, or reached through its maps, yields an id
      in range, and decoding that gives the process back. */
  lemma DecodeEncode(top: Footprint, path: seq<nat>)
    requires WellFormed(top) && top.ports[PROCESS] == 0 && ProcessPath(top, path)
    requires |path| == 1 || MappedPath(top, path)
    ensures 1 <= ProcessId(top, path) <= Processes(top) && Decode(top, ProcessId(top, path)) == path
  {
    hide WellFormed, Owner, DecodeFrom, Before, PrivatePath, At, Offset;
    ProcessPathIsOwned(top, path);
    OwnerOfGlobalIndex(top, PROCESS, PlaceOf(path));
    DecodeFromIsOwner(top, ProcessId(top, path));
  }

  ghost predicate HasId(top: Footprint, path: seq<nat>)
    requires WellFormed(top)
  {
    exists gpid :: 1 <= gpid <= Processes(top) && Decode(top, gpid) == path
  }

  /** Without process ports, the processes that have an id are those local to the top and
      those reached through its maps. */
  lemma HasIdExactly(top: Footprint, path: seq<nat>)
    requires WellFormed(top) && top.ports[PROCESS] == 0 && ProcessPath(top, path)
    ensures HasId(top, path) <==> |path| == 1 || MappedPath(top, path)
  {
    hide WellFormed, Owner, DecodeFrom, Before, PrivatePath, Decode, Processes;
    if |path| == 1 || MappedPath(top, path) {
      DecodeEncode(top, path);
    } else if HasId(top, path) {
      var gpid :| 1 <= gpid <= Processes(top) && Decode(top, gpid) == path;
      DecodedIsMapped(top, gpid);
    }
  }

  lemma DecodedIsMapped(top: Footprint, gpid: nat)
    requires WellFormed(top) && top.ports[PROCESS] == 0 && 1 <= gpid <= Processes(top)
    ensures |Decode(top, gpid)| == 1 || Decode(top, gpid)[0] > top.unmapped
  {
    hide WellFormed, Before;
    if gpid > top.locals[PROCESS] {
      LocatePrivateEntryCorrect(top, PROCESS, gpid - top.locals[PROCESS] - 1);
    }
  }

  /** Exactly when every private process has an id that decodes to it: the processes left out
      of the maps must not have any processes of their own. */
  lemma AllHaveIdsExactly(top: Footprint)
    requires WellFormed(top) && top.ports[PROCESS] == 0
    ensures (forall path | ProcessPath(top, path) :: HasId(top, path)) <==> Complete(top, PROCESS)
  {
    hide WellFormed, Complete, MappedPath, HasId, At;
    if Complete(top, PROCESS) {
      forall path | ProcessPath(top, path)
        ensures HasId(top, path)
      {
        ProcessPathIsOwned(top, path);
        OwnedIsMapped(top, PROCESS, PlaceOf(path));
        PrefixMapped(top, path);
        HasIdExactly(top, path);
      }
    } else {
      var p := LostPlace(top, PROCESS);
      var path := p.path + [p.index + 1];
      assert PlaceOf(path) == p;
      ProcessPathIsOwned(top, path);
      PrefixMapped(top, path);
      HasIdExactly(top, path);
    }
  }

  lemma PrefixMapped(top: Footprint, path: seq<nat>)
    requires WellFormed(top) && ProcessPath(top, path)
    ensures MappedPath(top, path[..|path| - 1]) <==> |path| == 1 || MappedPath(top, path)
  {
    hide WellFormed;
    assert path == path[..|path| - 1] + [path[|path| - 1]];
    PathSplit(top, path[..|path| - 1], path[|path| - 1]);
  }

  /** The same for a module: its port counts were cleared after its maps had been built for
      f, so every process must be found over maps that leave out the processes that were
      ports.  That works exactly if those have no processes of their own. */
  lemma ModuleHasIdsExactly(f: Footprint)
    requires WellFormed(f) && Allocated(f)
    ensures (forall path | ProcessPath(Cleared(f), path) :: HasId(Cleared(f), path))
            <==> Between(f, PROCESS, 0, f.ports[PROCESS]) == 0
  {
    hide WellFormed, HasId;
    AllHaveIdsExactly(Cleared(f));
    SameBetween(f, Cleared(f), PROCESS, 0, f.unmapped);
  }

  lemma {:induction false} SameBetween(f: Footprint, g: Footprint, t: Tag, from: nat, n: nat)
    requires WellFormed(f) && WellFormed(g) && f.procs == g.procs && n <= |f.procs|
    ensures Between(f, t, from, n) == Between(g, t, from, n)
    decreases n
  {
    hide WellFormed, Total;
    if n > from {
      SameBetween(f, g, t, from, n - 1);
    }
  }

  /** Exactly when decoding works for a footprint whose counts were not cleared: it must have
      no process ports, because the top counts ports among its own ids and then adds them
      again.  This is why modules clear them. */
  lemma DecodeWorksIffNoTopPorts(top: Footprint)
    requires WellFormed(top)
    ensures (forall gpid | 1 <= gpid <= Processes(top) :: ProcessPath(top, Decode(top, gpid)))
            <==> top.ports[PROCESS] == 0
  {
    hide WellFormed;
    if top.ports[PROCESS] == 0 {
      forall gpid | 1 <= gpid <= Processes(top)
        ensures ProcessPath(top, Decode(top, gpid))
      {
        EncodeDecode(top, gpid);
      }
    } else {
      var gpid := top.locals[PROCESS];
      assert Decode(top, gpid) == [gpid + top.ports[PROCESS]];
      assert !ProcessPath(top, Decode(top, gpid));
    }
  }

  // ---- the numbering that the maps give, and the one that counts every private process ----

  /** Maps built for the present ports would give the same offset to the process at path
      exactly if the processes left out before it own nothing. */
  lemma OffsetsAgreeExactly(f: Footprint, t: Tag, path: seq<nat>)
    requires WellFormed(f) && PrivatePath(f, path) && path != []
    ensures PrivatePath(Remapped(f), path)
    ensures Offset(f, t, path) == Offset(Remapped(f), t, path)
            <==> Between(f, t, f.ports[PROCESS], if path[0] <= f.unmapped then path[0] - 1 else f.unmapped) == 0
  {
    hide WellFormed, Total;
    var n := path[0] - 1;
    RemappedCounts(f, t, n);
    if path[0] > f.unmapped {
      BeforeIsBetween(f, t, n);
      BetweenSplit(f, t, f.ports[PROCESS], f.unmapped, n);
    }
  }

  /** With complete maps the offsets agree at every process. */
  lemma CompleteOffsetsAgree(f: Footprint, t: Tag, path: seq<nat>)
    requires WellFormed(f) && PrivatePath(f, path) && Complete(f, t)
    ensures PrivatePath(Remapped(f), path) && Offset(f, t, path) == Offset(Remapped(f), t, path)
  {
    hide WellFormed, Total;
    if path != [] {
      OffsetsAgreeExactly(f, t, path);
      if path[0] <= f.unmapped {
        BetweenSplit(f, t, f.ports[PROCESS], path[0] - 1, f.unmapped);
      }
    }
  }

  // ---- a module whose top had a process port that owns a process ----

  function Zeros(): seq<nat> {
    [0, 0, 0, 0, 0]
  }

  function NoActuals(): seq<seq<nat>> {
    [[], [], [], [], []]
  }

  function Leaf(): Footprint {
    Footprint(Zeros(), Zeros(), 0, [])
  }

  /** A process with one process of its own. */
  function Owning(): Footprint {
    Footprint(Zeros(), [1, 0, 0, 0, 0], 0, [Instance(NoActuals(), Leaf())])
  }

  /** A type with one process port, of the type above. */
  function PortOwning(): Footprint {
    Footprint([1, 0, 0, 0, 0], [1, 0, 0, 0, 0], 1, [Instance(NoActuals(), Owning())])
  }

  /** As a module it has two processes and one id. */
  lemma StaleMapExample()
    ensures WellFormed(PortOwning()) && Allocated(PortOwning())
    ensures var top := Cleared(PortOwning());
      && Processes(top) == 1
      && ProcessPath(top, [1, 1]) && !HasId(top, [1, 1])
  {
    hide WellFormed, HasId;
    PortOwningShape();
    var top := Cleared(PortOwning());
    assert Child(top, 1) == Owning();
    assert [1, 1][1..] == [1] && [1][1..] == [];
    assert PrivatePath(Owning(), [1]);
    HasIdExactly(top, [1, 1]);
  }

  lemma OwningShape()
    ensures WellFormed(Leaf()) && WellFormed(Owning())
  {
  }

  lemma PortOwningShape()
    ensures WellFormed(Owning()) && WellFormed(PortOwning()) && Allocated(PortOwning())
  {
    OwningShape();
    assert Connected(PortOwning(), PortOwning().procs[0]);
  }
}
