/** Footprints: the allocated shape of a process type.

    A footprint holds one instance pool per meta-type.  In each pool the entries
    reachable through ports come first and the private ones follow.  Every process
    entry also records its own footprint and, per meta-type, the local ids of the
    enclosing footprint that its ports are connected to.

    Instances that are private to subprocesses are not stored in the pool; they are
    counted, and a sorted map tells which subprocess owns which block of them. */
module Footprints {

  /** The five meta-types that are numbered: process, channel, enum, int and bool. */
  const TAGS := 5
  type Tag = t: nat | t < TAGS
  const PROCESS: Tag := 0

  /** A process entry of a pool: its port actuals (1-based local ids of the enclosing
      footprint, per meta-type) and the footprint of its type. */
  datatype Instance = Instance(actuals: seq<seq<nat>>, body: Footprint)

  /** ports and locals give, per meta-type, the number of port entries and of all entries.
      The private maps leave out the first `unmapped` processes: those that were reachable
      through ports when the maps were built. */
  datatype Footprint = Footprint(ports: seq<nat>, locals: seq<nat>, unmapped: nat, procs: seq<Instance>)

  predicate Shaped(f: Footprint) {
    && |f.ports| == TAGS && |f.locals| == TAGS
    && (forall t: Tag :: f.ports[t] <= f.locals[t])
    && |f.procs| == f.locals[PROCESS]
    && f.ports[PROCESS] <= f.unmapped <= |f.procs|
  }

  /** The maps were built with the present ports, as allocation does. */
  predicate Allocated(f: Footprint)
    requires |f.ports| == TAGS
  {
    f.unmapped == f.ports[PROCESS]
  }

  /** Only the footprint at the top may have had its port counts changed since. */
  predicate WellFormed(f: Footprint): (b: bool)
    ensures b ==> Shaped(f)
  {
    && Shaped(f)
    && (forall i | 0 <= i < |f.procs| ::
          Connected(f, f.procs[i]) && WellFormed(f.procs[i].body) && Allocated(f.procs[i].body))
  }

  /** Every port of a process is connected to an entry of f. */
  predicate Connected(f: Footprint, p: Instance)
    requires |f.ports| == TAGS && |f.locals| == TAGS
  {
    && |p.actuals| == TAGS && |p.body.ports| == TAGS
    && forall t: Tag ::
         && |p.actuals[t]| == p.body.ports[t]
         && (forall k | 0 <= k < |p.actuals[t]| :: 1 <= p.actuals[t][k] <= f.locals[t])
  }

  /** The top-level footprint of a module: its port counts have been cleared, which leaves its
      maps as they were. */
  predicate Top(f: Footprint) {
    WellFormed(f) && forall t: Tag :: f.ports[t] == 0
  }

  function Child(f: Footprint, lpid: nat): (c: Footprint)
    requires WellFormed(f) && 1 <= lpid <= |f.procs|
    ensures WellFormed(c) && Allocated(c) && c < f
  {
    f.procs[lpid - 1].body
  }

  function Privates(f: Footprint, t: Tag): nat
    requires WellFormed(f)
  {
    f.locals[t] - f.ports[t]
  }

  /** All private entries in f and, recursively, in the processes in its maps. */
  function Total(f: Footprint, t: Tag): nat
    requires WellFormed(f)
    decreases f, 1, 0
  {
    Privates(f, t) + Before(f, t, |f.procs|)
  }

  /** The private entries that belong to the processes in the maps, among the first n. */
  function Before(f: Footprint, t: Tag, n: nat): nat
    requires WellFormed(f) && n <= |f.procs|
    decreases f, 0, n
  {
    if n <= f.unmapped then 0
    else Before(f, t, n - 1) + Total(Child(f, n), t)
  }

  lemma {:induction false} BeforeMonotone(f: Footprint, t: Tag, m: nat, n: nat)
    requires WellFormed(f) && m <= n <= |f.procs|
    ensures Before(f, t, m) <= Before(f, t, n)
    decreases n - m
  {
    hide WellFormed;
    if m < n {
      BeforeMonotone(f, t, m, n - 1);
    }
  }

  /** index is a 1-based process id, lower the number of entries owned by earlier processes. */
  datatype BlockEntry = BlockEntry(index: nat, lower: nat)

  /** The blocks of the processes in the maps, among the first n, that own at least one entry. */
  function Blocks(f: Footprint, t: Tag, n: nat): seq<BlockEntry>
    requires WellFormed(f) && n <= |f.procs|
  {
    if n <= f.unmapped then []
    else
      var earlier := Blocks(f, t, n - 1);
      if Total(Child(f, n), t) == 0 then earlier
      else earlier + [BlockEntry(n, Before(f, t, n - 1))]
  }

  /** The finished map: the blocks, then a past-the-end entry. */
  function PrivateMap(f: Footprint, t: Tag): seq<BlockEntry>
    requires WellFormed(f)
  {
    Blocks(f, t, |f.procs|) + [BlockEntry(|f.procs| + 1, Before(f, t, |f.procs|))]
  }

  /** Builds the map the way allocation does: the last entry always stands for the block
      about to start, its index is patched when a process claims it, and the index of
      the final entry is patched when all processes have been visited. */
  method ConstructPrivateEntryMap(f: Footprint, t: Tag) returns (pm: seq<BlockEntry>)
    requires WellFormed(f) && Allocated(f)
    ensures pm == PrivateMap(f, t)
  {
    hide WellFormed;
    pm := [BlockEntry(0, 0)];
    var i := f.ports[PROCESS];
    while i < |f.procs|
      invariant f.ports[PROCESS] <= i <= |f.procs|
      invariant pm == Blocks(f, t, i) + [BlockEntry(0, Before(f, t, i))]
    {
      var p := Total(Child(f, i + 1), t);
      if p != 0 {
        var last := pm[|pm| - 1];
        pm := pm[|pm| - 1 := last.(index := i + 1)];
        pm := pm + [BlockEntry(0, last.lower + p)];
      }
      i := i + 1;
    }
    pm := pm[|pm| - 1 := pm[|pm| - 1].(index := i + 1)];
  }

  /** Lookup by entry number: the last map entry whose lower bound is not above li
      (std::upper_bound, less one). */
  function UpperBound(pm: seq<BlockEntry>, li: nat): (k: nat)
    ensures k <= |pm|
    ensures forall j | 0 <= j < k :: pm[j].lower <= li
    ensures k < |pm| ==> li < pm[k].lower
  {
    if pm == [] || li < pm[0].lower then 0
    else
      var k := UpperBound(pm[1..], li);
      assert forall j | 1 <= j < k + 1 :: pm[j] == pm[1..][j - 1];
      k + 1
  }

  function LocatePrivateEntry(f: Footprint, t: Tag, li: nat): BlockEntry
    requires WellFormed(f)
    requires UpperBound(PrivateMap(f, t), li) > 0
  {
    PrivateMap(f, t)[UpperBound(PrivateMap(f, t), li) - 1]
  }

  /** Lookup by process: the first map entry whose index is not below lpid (std::lower_bound). */
  function LowerBound(pm: seq<BlockEntry>, lpid: nat): (k: nat)
    ensures k <= |pm|
    ensures forall j | 0 <= j < k :: pm[j].index < lpid
    ensures k < |pm| ==> lpid <= pm[k].index
  {
    if pm == [] || lpid <= pm[0].index then 0
    else
      var k := LowerBound(pm[1..], lpid);
      assert forall j | 1 <= j < k + 1 :: pm[j] == pm[1..][j - 1];
      k + 1
  }

  function LocateCumulativeEntry(f: Footprint, t: Tag, lpid: nat): BlockEntry
    requires WellFormed(f) && lpid <= |f.procs|
  {
    var pm := PrivateMap(f, t);
    assert pm[|pm| - 1].index == |f.procs| + 1;
    pm[LowerBound(pm, lpid)]
  }

  /** What a block says about the process it names. */
  ghost predicate IsBlock(f: Footprint, t: Tag, e: BlockEntry)
    requires WellFormed(f)
  {
    && f.unmapped < e.index <= |f.procs|
    && e.lower == Before(f, t, e.index - 1)
    && Total(Child(f, e.index), t) > 0
  }

  lemma BlockSize(f: Footprint, t: Tag, e: BlockEntry)
    requires WellFormed(f) && IsBlock(f, t, e)
    ensures Before(f, t, e.index) == e.lower + Total(Child(f, e.index), t)
  {
    hide WellFormed, Total;
  }

  /** Where the k-th of the blocks found among the first n processes ends. */
  ghost function BlockEnd(f: Footprint, t: Tag, n: nat, k: nat): nat
    requires WellFormed(f) && n <= |f.procs| && k < |Blocks(f, t, n)|
  {
    if k + 1 < |Blocks(f, t, n)| then Blocks(f, t, n)[k + 1].lower else Before(f, t, n)
  }

  /** The blocks among the first n processes are contiguous, start at zero, end at Before(n),
      and are sorted by process. */
  ghost predicate Contiguous(f: Footprint, t: Tag, n: nat)
    requires WellFormed(f) && n <= |f.procs|
  {
    var bs := Blocks(f, t, n);
    && (forall k | 0 <= k < |bs| :: IsBlock(f, t, bs[k]) && bs[k].index <= n
                                    && Before(f, t, bs[k].index) == BlockEnd(f, t, n, k))
    && (if bs == [] then Before(f, t, n) == 0 else bs[0].lower == 0)
  }

  lemma {:induction false} BlocksContiguous(f: Footprint, t: Tag, n: nat)
    requires WellFormed(f) && n <= |f.procs|
    ensures Contiguous(f, t, n)
  {
    hide WellFormed, Total, Contiguous;
    if n <= f.unmapped {
      NoBlocks(f, t, n);
    } else {
      BlocksContiguous(f, t, n - 1);
      if Total(Child(f, n), t) == 0 {
        SameBlocks(f, t, n);
      } else {
        NewBlock(f, t, n);
      }
    }
  }

  lemma NoBlocks(f: Footprint, t: Tag, n: nat)
    requires WellFormed(f) && n <= f.unmapped
    ensures Contiguous(f, t, n)
  {
    hide WellFormed;
  }

  lemma SameBlocks(f: Footprint, t: Tag, n: nat)
    requires WellFormed(f) && f.unmapped < n <= |f.procs| && Total(Child(f, n), t) == 0 && Contiguous(f, t, n - 1)
    ensures Contiguous(f, t, n)
  {
    hide WellFormed, Total;
    assert forall k | 0 <= k < |Blocks(f, t, n)| :: BlockEnd(f, t, n, k) == BlockEnd(f, t, n - 1, k);
  }

  lemma NewBlock(f: Footprint, t: Tag, n: nat)
    requires WellFormed(f) && f.unmapped < n <= |f.procs| && Total(Child(f, n), t) > 0 && Contiguous(f, t, n - 1)
    ensures Contiguous(f, t, n)
  {
    hide WellFormed, Total;
    var bs, earlier := Blocks(f, t, n), Blocks(f, t, n - 1);
    assert bs == earlier + [BlockEntry(n, Before(f, t, n - 1))];
    forall k | 0 <= k < |bs|
      ensures IsBlock(f, t, bs[k]) && bs[k].index <= n
      ensures Before(f, t, bs[k].index) == BlockEnd(f, t, n, k)
    {
      if k < |earlier| {
        assert bs[k] == earlier[k] && Before(f, t, bs[k].index) == BlockEnd(f, t, n - 1, k);
      }
    }
  }

  /** Every process in the map sees, in the first block at or after it, the number of
      entries owned by the processes before it. */
  lemma {:induction false} BlocksCumulative(f: Footprint, t: Tag, n: nat, lpid: nat)
    requires WellFormed(f) && f.unmapped < lpid <= n <= |f.procs|
    ensures var bs := Blocks(f, t, n); var k := LowerBound(bs, lpid);
      Before(f, t, lpid - 1) == if k < |bs| then bs[k].lower else Before(f, t, n)
  {
    hide WellFormed;
    var bs, earlier := Blocks(f, t, n), Blocks(f, t, n - 1);
    if lpid < n {
      BlocksCumulative(f, t, n - 1, lpid);
    } else {
      AllBelow(f, t, n - 1);
    }
    if bs != earlier {
      LowerBoundAppend(earlier, bs[|bs| - 1], lpid);
    }
  }

  lemma AllBelow(f: Footprint, t: Tag, n: nat)
    requires WellFormed(f) && n <= |f.procs|
    ensures LowerBound(Blocks(f, t, n), n + 1) == |Blocks(f, t, n)|
  {
    hide WellFormed;
    BlocksContiguous(f, t, n);
  }

  lemma {:induction false} LowerBoundAppend(pm: seq<BlockEntry>, e: BlockEntry, lpid: nat)
    requires lpid <= e.index
    ensures LowerBound(pm + [e], lpid) == LowerBound(pm, lpid)
  {
    if pm != [] && pm[0].index < lpid {
      assert (pm + [e])[1..] == pm[1..] + [e];
      LowerBoundAppend(pm[1..], e, lpid);
    }
  }

  /** Looking up an entry number finds the process whose half-open block contains it. */
  lemma LocatePrivateEntryCorrect(f: Footprint, t: Tag, li: nat)
    requires WellFormed(f) && li < Before(f, t, |f.procs|)
    ensures UpperBound(PrivateMap(f, t), li) > 0
    ensures var e := LocatePrivateEntry(f, t, li);
      && f.unmapped < e.index <= |f.procs|
      && e.lower == Before(f, t, e.index - 1)
      && e.lower <= li < e.lower + Total(Child(f, e.index), t)
  {
    hide WellFormed, Total, Blocks;
    BlocksContiguous(f, t, |f.procs|);
    var bs := Blocks(f, t, |f.procs|);
    var pm := PrivateMap(f, t);
    var k := UpperBound(pm, li);
    assert pm[|pm| - 1].lower > li;
    assert pm[0] == bs[0];
    assert pm[k - 1] == bs[k - 1];
    assert pm[k].lower == BlockEnd(f, t, |f.procs|, k - 1);
    BlockSize(f, t, bs[k - 1]);
  }

  /** Looking up any process finds the number of mapped entries before it, whether or not it
      owns any itself, and whether or not it is in the map. */
  lemma LocateCumulativeEntryCorrect(f: Footprint, t: Tag, lpid: nat)
    requires WellFormed(f) && 1 <= lpid <= |f.procs|
    ensures LocateCumulativeEntry(f, t, lpid).lower == Before(f, t, lpid - 1)
  {
    hide WellFormed;
    var bs := Blocks(f, t, |f.procs|);
    var pm := PrivateMap(f, t);
    if lpid > f.unmapped {
      BlocksCumulative(f, t, |f.procs|, lpid);
      LowerBoundAppend(bs, BlockEntry(|f.procs| + 1, Before(f, t, |f.procs|)), lpid);
    } else {
      BlocksContiguous(f, t, |f.procs|);
      assert bs != [] ==> pm[0] == bs[0];
      assert LowerBound(pm, lpid) == 0;
    }
  }

  /** The entries of the processes after the first `from`, among the first n. */
  function Between(f: Footprint, t: Tag, from: nat, n: nat): nat
    requires WellFormed(f) && n <= |f.procs|
    decreases n
  {
    if n <= from then 0 else Between(f, t, from, n - 1) + Total(Child(f, n), t)
  }

  lemma {:induction false} BeforeIsBetween(f: Footprint, t: Tag, n: nat)
    requires WellFormed(f) && n <= |f.procs|
    ensures Before(f, t, n) == Between(f, t, f.unmapped, n)
  {
    hide WellFormed;
    if n > f.unmapped {
      BeforeIsBetween(f, t, n - 1);
    }
  }

  lemma {:induction false} BetweenSplit(f: Footprint, t: Tag, from: nat, mid: nat, n: nat)
    requires WellFormed(f) && from <= mid <= n <= |f.procs|
    ensures Between(f, t, from, n) == Between(f, t, from, mid) + Between(f, t, mid, n)
    decreases n
  {
    hide WellFormed;
    if mid < n {
      BetweenSplit(f, t, from, mid, n - 1);
    }
  }

  /** f with maps built for its present ports. */
  function Remapped(f: Footprint): (g: Footprint)
    requires WellFormed(f)
    ensures WellFormed(g) && Allocated(g)
  {
    f.(unmapped := f.ports[PROCESS])
  }

  /** f with its port counts cleared after its maps were built: the footprint of a module. */
  function Cleared(f: Footprint): (g: Footprint)
    requires WellFormed(f)
    ensures Top(g)
  {
    f.(ports := seq(TAGS, t => 0))
  }

  /** Clearing the port counts does not touch the maps. */
  lemma {:induction false} ClearingKeepsMaps(f: Footprint, t: Tag, n: nat)
    requires WellFormed(f) && n <= |f.procs|
    ensures Before(Cleared(f), t, n) == Before(f, t, n) && Blocks(Cleared(f), t, n) == Blocks(f, t, n)
    decreases n
  {
    if n > f.unmapped {
      ClearingKeepsMaps(f, t, n - 1);
    }
  }

  lemma {:induction false} RemappedCounts(f: Footprint, t: Tag, n: nat)
    requires WellFormed(f) && n <= |f.procs|
    ensures Before(Remapped(f), t, n) == Between(f, t, f.ports[PROCESS], n)
    decreases n
  {
    if n > f.ports[PROCESS] {
      RemappedCounts(f, t, n - 1);
    }
  }
}
