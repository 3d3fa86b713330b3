/** Runs of the context cache: any interleaving of global queries, local descents and
    halvings answers as if nothing were cached. */
module ContextQueries {
  import opened Footprints
  import opened Numbering
  import opened Frames
  import opened TreeCache
  import opened ContextCache

  /** A reference to a process context inside the cache.  Descending records the local id. */
  class GlobalProcessContextRef {
    var gpid: nat
    var subcache: CacheNode

    constructor (c: GlobalContextCache)
      ensures gpid == 0 && subcache == c.frameCache.root
    {
      gpid, subcache := 0, c.frameCache.root;
    }

    method Descend(c: GlobalContextCache, lpid: nat)
      requires c.Valid() && c.frameCache.Holds(subcache) && LocalPath(c.top, subcache.path)
      requires 1 <= lpid <= |At(c.top, subcache.path).procs|
      modifies this, c.frameCache, subcache
      ensures c.Valid() && c.Grown()
      ensures c.frameCache.Holds(subcache) && subcache.path == old(subcache.path) + [lpid] && gpid == lpid
    {
      hide GlobalContextCache.TreeValid, WellFormed, Processes, At, LocalPath, Hot, Extends;
      c.RootHeld();
      subcache := c.LookupLocalFootprintFrameCache(lpid, subcache);
      gpid := lpid;
      HotGrown(c.top, old(c.frameCache.index), c.frameCache.index, c.hotCache, c.cacheLru, c.asked);
    }
  }

  /** Ask for a process by global id, step down from where the last query ended, or halve the
      cache, which invalidates references and so starts over at the top. */
  datatype Query = Global(pid: nat) | Down(lpid: nat) | HalveCache

  function Next(top: Footprint, path: seq<nat>, q: Query): seq<nat>
    requires WellFormed(top)
  {
    match q
    case Global(pid) => if pid <= Processes(top) then PathOf(top, pid) else path
    case Down(lpid) => path + [lpid]
    case HalveCache => []
  }

  /** The process that a run has arrived at. */
  function Reached(top: Footprint, qs: seq<Query>): seq<nat>
    requires WellFormed(top)
  {
    if qs == [] then [] else Next(top, Reached(top, qs[..|qs| - 1]), qs[|qs| - 1])
  }

  predicate Allowed(top: Footprint, path: seq<nat>, q: Query)
    requires WellFormed(top)
  {
    match q
    case Global(pid) => pid <= Processes(top)
    case Down(lpid) => LocalPath(top, path) && 1 <= lpid <= |At(top, path).procs|
    case HalveCache => true
  }

  /** Where a query leads, told by the numbering of processes and not by decoding: to the one
      process among those that have an id whose id was asked for, to the top for the id 0, one
      process further down, or back to the top. */
  ghost predicate Arrives(top: Footprint, before: seq<nat>, q: Query, after: seq<nat>)
    requires WellFormed(top)
  {
    match q
    case Global(pid) =>
      if pid == 0 then after == []
      else ProcessPath(top, after) && (|after| == 1 || MappedPath(top, after)) && ProcessId(top, after) == pid
    case Down(lpid) => after == before + [lpid]
    case HalveCache => after == []
  }

  lemma NextArrives(top: Footprint, path: seq<nat>, q: Query)
    requires Top(top) && Allowed(top, path, q)
    ensures Arrives(top, path, q, Next(top, path, q))
  {
    hide WellFormed, Processes, Decode, PrivatePath, ProcessId;
    if q.Global? && q.pid != 0 {
      EncodeDecode(top, q.pid);
      DecodedIsMapped(top, q.pid);
    }
  }

  /** There is no other place that it may lead to. */
  lemma ArrivesOnce(top: Footprint, path: seq<nat>, q: Query, after: seq<nat>)
    requires Top(top) && Allowed(top, path, q) && Arrives(top, path, q, after)
    ensures after == Next(top, path, q)
  {
    hide WellFormed, Processes, Decode, PrivatePath, ProcessId;
    if q.Global? && q.pid != 0 {
      DecodeEncode(top, after);
    }
  }

  /** The id that a reference records for a query. */
  function Recorded(q: Query): nat {
    match q
    case Global(pid) => pid
    case Down(lpid) => lpid
    case HalveCache => 0
  }

  /** One query: the reference moves to the process it names. */
  method Step(c: GlobalContextCache, r: GlobalProcessContextRef, q: Query)
    requires c.Valid() && c.frameCache.Holds(r.subcache) && Allowed(c.top, r.subcache.path, q)
    modifies c, c.frameCache, c.frameCache.nodes, r
    ensures c.Valid() && c.frameCache.Holds(r.subcache) && r.subcache.path == Next(c.top, old(r.subcache.path), q)
    ensures Arrives(c.top, old(r.subcache.path), q, r.subcache.path) && r.gpid == Recorded(q)
    ensures fresh(c.frameCache.nodes - old(c.frameCache.nodes))
    ensures fresh(c.frameCache.values - old(c.frameCache.values))
  {
    hide WellFormed, Processes, LocalPath, At, GlobalContextCache.Valid, Extends, Arrives;
    c.RootValid();
    NextArrives(c.top, r.subcache.path, q);
    match q {
      case Global(pid) =>
        var node := c.GetGlobalContext(pid);
        r.gpid, r.subcache := pid, node;
      case Down(lpid) =>
        r.Descend(c, lpid);
      case HalveCache =>
        c.HalveCache();
        c.RootValid();
        r.gpid, r.subcache := 0, c.frameCache.root;
    }
  }

  /** c is what the uncached walk builds for the process reached by the queries. */
  ghost predicate Right(top: Footprint, qs: seq<Query>, c: Context)
    requires WellFormed(top)
  {
    LocalPath(top, Reached(top, qs)) && c == ContextAt(top, Reached(top, qs))
  }

  lemma ReachedNone(top: Footprint, qs: seq<Query>)
    requires WellFormed(top)
    ensures Reached(top, qs[..0]) == []
  {
  }

  lemma ReachedNext(top: Footprint, qs: seq<Query>, i: nat)
    requires WellFormed(top) && i < |qs|
    ensures Reached(top, qs[..i + 1]) == Next(top, Reached(top, qs[..i]), qs[i])
  {
    assert qs[..i + 1][..i] == qs[..i];
  }

  /** Where every query of a run leads: the first from the top, each one from where the one
      before it ended. */
  lemma RunArrives(top: Footprint, qs: seq<Query>, i: nat)
    requires Top(top) && i < |qs| && Allowed(top, Reached(top, qs[..i]), qs[i])
    ensures Reached(top, []) == []
    ensures Arrives(top, Reached(top, qs[..i]), qs[i], Reached(top, qs[..i + 1]))
  {
    hide WellFormed, Next, Arrives;
    ReachedNext(top, qs, i);
    NextArrives(top, Reached(top, qs[..i]), qs[i]);
  }

  /** Both cache layers are invisible: after every query, the context found in the cache is
      the one that the walk from the top builds for the process that the query leads to. */
  method Run(top: Footprint, qs: seq<Query>) returns (results: seq<Context>)
    requires Top(top) && Processes(top) < NO_PID
    requires forall i | 0 <= i < |qs| :: Allowed(top, Reached(top, qs[..i]), qs[i])
    ensures |results| == |qs|
    ensures forall i | 0 <= i < |qs| :: Right(top, qs[..i + 1], results[i])
    ensures Reached(top, []) == []
    ensures forall i | 0 <= i < |qs| :: Arrives(top, Reached(top, qs[..i]), qs[i], Reached(top, qs[..i + 1]))
  {
    hide WellFormed, Processes, ContextAt, LocalPath, At, GlobalContextCache.Valid, Next, Reached, Arrives;
    forall i | 0 <= i < |qs|
      ensures Arrives(top, Reached(top, qs[..i]), qs[i], Reached(top, qs[..i + 1]))
    {
      RunArrives(top, qs, i);
    }
    var c := new GlobalContextCache(top);
    c.RootValid();
    ReachedNone(top, qs);
    assert qs[..0] == [];
    var r := new GlobalProcessContextRef(c);
    results := [];
    for i := 0 to |qs|
      invariant fresh(c) && fresh(c.frameCache) && fresh(c.frameCache.nodes) && fresh(c.frameCache.values) && fresh(r)
      invariant c.Valid() && c.top == top && c.frameCache.Holds(r.subcache)
      invariant r.subcache.path == Reached(top, qs[..i])
      invariant |results| == i
      invariant forall j | 0 <= j < i :: Right(top, qs[..j + 1], results[j])
    {
      Step(c, r, qs[i]);
      ReachedNext(top, qs, i);
      c.ValueHeld(r.subcache);
      results := results + [r.subcache.value.Value()];
    }
  }
}
