/** The cache of process contexts: a tree of memoised contexts keyed by local process ids,
    and in front of it two "hot" slots for the processes asked for most recently. */
module ContextCache {
  import opened Footprints
  import opened Numbering
  import opened Frames
  import opened TreeCache

  /** size_t(-1), the key of an empty hot slot; no process has this id. */
  const NO_PID: nat := 0xFFFF_FFFF_FFFF_FFFF

  datatype HotSlot = HotSlot(pid: nat, node: CacheNode?)

  /** Where the context of a global process id is found; 0 is the top. */
  function PathOf(top: Footprint, pid: nat): seq<nat>
    requires WellFormed(top) && pid <= Processes(top)
  {
    if pid == 0 then [] else Decode(top, pid)
  }

  // ---- least recently used, capacity two ----

  /** The latest id asked for that differs from x. */
  function LatestOther(asked: seq<nat>, x: nat): nat {
    if asked == [] then NO_PID
    else if asked[|asked| - 1] != x then asked[|asked| - 1]
    else LatestOther(asked[..|asked| - 1], x)
  }

  function Latest(asked: seq<nat>): nat {
    if asked == [] then NO_PID else asked[|asked| - 1]
  }

  /** Asking again for the latest id leaves the runner-up in place; asking for any other id
      makes the old latest the runner-up. */
  lemma {:induction false} AskedStep(asked: seq<nat>, pid: nat)
    requires pid != NO_PID
    ensures Latest(asked + [pid]) == pid
    ensures LatestOther(asked + [pid], pid)
         == if pid == Latest(asked) then LatestOther(asked, pid) else Latest(asked)
  {
    assert (asked + [pid])[..|asked|] == asked;
  }

  /** The runner-up is the last element of the history once every trailing occurrence of the
      latest id is dropped. */
  lemma {:induction false} LatestOtherMeaning(asked: seq<nat>, x: nat)
    ensures var y := LatestOther(asked, x);
      if forall i | 0 <= i < |asked| :: asked[i] == x then y == NO_PID
      else exists i | 0 <= i < |asked| :: asked[i] == y != x && forall j | i < j < |asked| :: asked[j] == x
  {
    if asked != [] && asked[|asked| - 1] == x {
      var shorter := asked[..|asked| - 1];
      LatestOtherMeaning(shorter, x);
      if i :| 0 <= i < |shorter| && shorter[i] == LatestOther(shorter, x) != x
              && forall j | i < j < |shorter| :: shorter[j] == x {
        assert asked[i] == shorter[i];
      }
    }
  }

  ghost predicate Extends(before: map<seq<nat>, CacheNode>, index: map<seq<nat>, CacheNode>) {
    forall p | p in before :: p in index && index[p] == before[p]
  }

  lemma ExtendsReflexive(a: map<seq<nat>, CacheNode>)
    ensures Extends(a, a)
  {
  }

  lemma ExtendsTransitive(a: map<seq<nat>, CacheNode>, b: map<seq<nat>, CacheNode>, c: map<seq<nat>, CacheNode>)
    requires Extends(a, b) && Extends(b, c)
    ensures Extends(a, c)
  {
  }

  /** A hot slot that is in use points to a node still in the tree, that of its process. */
  ghost predicate SlotValid(top: Footprint, index: map<seq<nat>, CacheNode>, s: HotSlot)
    requires WellFormed(top)
  {
    s.pid == NO_PID ||
    (1 <= s.pid <= Processes(top) && s.node != null && s.node.path in index && index[s.node.path] == s.node
     && s.node.path == Decode(top, s.pid))
  }

  /** The slot named by lru holds the latest id, the other one the runner-up. */
  ghost predicate Hot(top: Footprint, index: map<seq<nat>, CacheNode>, hot: seq<HotSlot>, lru: nat, asked: seq<nat>)
    requires WellFormed(top)
  {
    && |hot| == 2 && lru < 2
    && SlotValid(top, index, hot[0]) && SlotValid(top, index, hot[1])
    && NO_PID !in asked
    && hot[lru].pid == Latest(asked)
    && hot[1 - lru].pid == LatestOther(asked, Latest(asked))
  }

  lemma HotEmpty(top: Footprint, index: map<seq<nat>, CacheNode>, lru: nat)
    requires WellFormed(top) && lru < 2
    ensures Hot(top, index, [HotSlot(NO_PID, null), HotSlot(NO_PID, null)], lru, [])
  {
  }

  /** Finding an id in either slot, and then naming that slot, keeps both slots right. */
  lemma HotHit(top: Footprint, index: map<seq<nat>, CacheNode>, hot: seq<HotSlot>, lru: nat, asked: seq<nat>, hit: nat)
    requires WellFormed(top) && Hot(top, index, hot, lru, asked)
    requires hit < 2 && hot[hit].pid != NO_PID
    ensures Hot(top, index, hot, hit, asked + [hot[hit].pid])
  {
    hide WellFormed, Processes, Decode, LatestOther;
    AskedStep(asked, hot[hit].pid);
  }

  /** Overwriting the other slot with an id found in neither keeps both slots right. */
  lemma HotMiss(top: Footprint, before: map<seq<nat>, CacheNode>, index: map<seq<nat>, CacheNode>,
                hot: seq<HotSlot>, lru: nat, asked: seq<nat>, pid: nat, node: CacheNode)
    requires WellFormed(top) && Hot(top, before, hot, lru, asked)
    requires Extends(before, index)
    requires pid != hot[lru].pid && 1 <= pid <= Processes(top) < NO_PID
    requires node.path in index && index[node.path] == node && node.path == Decode(top, pid)
    ensures Hot(top, index, hot[1 - lru := HotSlot(pid, node)], 1 - lru, asked + [pid])
  {
    hide WellFormed, Processes, Decode, LatestOther;
    AskedStep(asked, pid);
  }

  /** Growth of the tree does not disturb the slots. */
  lemma HotGrown(top: Footprint, before: map<seq<nat>, CacheNode>, index: map<seq<nat>, CacheNode>,
                 hot: seq<HotSlot>, lru: nat, asked: seq<nat>)
    requires WellFormed(top) && Hot(top, before, hot, lru, asked) && Extends(before, index)
    ensures Hot(top, index, hot, lru, asked)
  {
    hide WellFormed, Processes, Decode, LatestOther;
  }

  lemma HotShape(top: Footprint, index: map<seq<nat>, CacheNode>, hot: seq<HotSlot>, lru: nat, asked: seq<nat>)
    requires WellFormed(top) && Hot(top, index, hot, lru, asked)
    ensures |hot| == 2 && lru < 2 && SlotValid(top, index, hot[0]) && SlotValid(top, index, hot[1])
  {
  }

  class GlobalContextCache {
    const top: Footprint
    const frameCache: FrameCache
    var hotCache: seq<HotSlot>
    var cacheLru: nat
    /** The nonzero ids asked for since the cache was last halved. */
    ghost var asked: seq<nat>

    /** The node at p holds the context that the uncached walk along p builds. */
    ghost predicate Memo(p: seq<nat>)
      requires WellFormed(top) && p in frameCache.index && frameCache.index[p] in frameCache.nodes
      reads frameCache`index, frameCache`nodes, frameCache.nodes, frameCache.index[p].value
    {
      LocalPath(top, p) && frameCache.index[p].value.Value() == ContextAt(top, p)
    }

    ghost predicate TreeValid()
      reads frameCache, frameCache.nodes, frameCache.values
    {
      && Top(top) && Processes(top) < NO_PID
      && frameCache.Shape()
      && forall p {:trigger Memo(p)} | p in frameCache.index :: Memo(p)
    }

    ghost predicate HotValid()
      requires Top(top)
      reads this, frameCache`index
    {
      Hot(top, frameCache.index, hotCache, cacheLru, asked)
    }

    ghost predicate Valid()
      reads this, frameCache, frameCache.nodes, frameCache.values
    {
      TreeValid() && HotValid()
    }

    /** What a lookup may do to the tree: add nodes. */
    twostate predicate Grown()
      reads frameCache, frameCache.nodes, frameCache.values
    {
      && Extends(old(frameCache.index), frameCache.index)
      && fresh(frameCache.nodes - old(frameCache.nodes))
      && fresh(frameCache.values - old(frameCache.values))
    }

    constructor (topfp: Footprint)
      requires Top(topfp) && Processes(topfp) < NO_PID
      ensures Valid() && top == topfp && asked == []
      ensures fresh(frameCache) && fresh(frameCache.nodes) && fresh(frameCache.values)
    {
      var tree := new FrameCache();
      top, frameCache := topfp, tree;
      tree.root.value.ConstructTopGlobalContext(topfp);
      hotCache := [HotSlot(NO_PID, null), HotSlot(NO_PID, null)];
      cacheLru := 0;
      asked := [];
    }

    /** One step down from a node of the tree: an existing child is returned as it is, a new
        one gets its context from the node. */
    method LookupLocalFootprintFrameCache(lpid: nat, cache: CacheNode) returns (child: CacheNode)
      requires TreeValid() && frameCache.Holds(cache) && LocalPath(top, cache.path)
      requires 1 <= lpid <= |At(top, cache.path).procs|
      modifies frameCache, cache
      ensures TreeValid() && Grown()
      ensures frameCache.Holds(child) && child.path == cache.path + [lpid]
    {
      hide WellFormed, LocalPath, At, Processes, ContextAt;
      ContextHeld(cache.path);
      ghost var before := frameCache.index;
      var miss;
      child, miss := frameCache.InsertFind(cache, lpid);
      if miss {
        forall p | p in frameCache.index && p != child.path
          ensures Memo(p) && frameCache.index[p].value != child.value
        {
          assert p in before && old(Memo(p));
        }
        Compute(cache, child, lpid);
      }
    }

    /** Fills in the context of a new node from that of its parent. */
    method Compute(cache: CacheNode, child: CacheNode, lpid: nat)
      requires Top(top) && Processes(top) < NO_PID && frameCache.Shape()
      requires frameCache.Holds(cache) && frameCache.Holds(child) && child.path == cache.path + [lpid]
      requires LocalPath(top, cache.path) && 1 <= lpid <= |At(top, cache.path).procs|
      requires forall p {:trigger Memo(p)} | p in frameCache.index && p != child.path ::
                 Memo(p) && frameCache.index[p].value != child.value
      modifies child.value
      ensures TreeValid()
    {
      hide WellFormed, LocalPath, At, Processes, ContextAt, PrivateChild, PortChild;
      DescendStep(top, cache.path, lpid);
      assert Memo(cache.path);
      var parent := cache.value;
      if lpid > parent.footprint.ports[PROCESS] {
        child.value.DescendFrame(parent, lpid, parent.footprint == top);
      } else {
        child.value.DescendPort(parent, lpid);
      }
      forall p | p in frameCache.index
        ensures Memo(p)
      {
        assert p != child.path ==> old(Memo(p));
      }
    }

    /** Decodes a global id, going down one cached step per subprocess. */
    method LookupGlobalFootprintFrameCache(pid: nat) returns (cache: CacheNode)
      requires TreeValid() && pid <= Processes(top)
      modifies frameCache, frameCache.nodes
      ensures TreeValid() && Grown()
      ensures frameCache.Holds(cache) && cache.path == PathOf(top, pid)
    {
      hide WellFormed, Processes, ContextAt, Decode, LocalPath, At, TreeValid, Extends;
      RootHeld();
      ExtendsReflexive(frameCache.index);
      if pid == 0 {
        cache := frameCache.root;
      } else {
        var lpid;
        cache, lpid := LookupOwner(pid);
        ghost var before := frameCache.index;
        cache := LookupLocalFootprintFrameCache(lpid, cache);
        ExtendsTransitive(old(frameCache.index), before, frameCache.index);
      }
    }

    /** The decoding loop: ends at the process that numbers the id among its own entries. */
    method LookupOwner(pid: nat) returns (cache: CacheNode, lpid: nat)
      requires TreeValid() && 1 <= pid <= Processes(top)
      modifies frameCache, frameCache.nodes
      ensures TreeValid() && Grown() && frameCache.Holds(cache)
      ensures LocalPath(top, cache.path) && 1 <= lpid <= |At(top, cache.path).procs|
      ensures cache.path + [lpid] == Decode(top, pid)
    {
      hide WellFormed, Processes, ContextAt, Decode, LocalPath, Before, LocatePrivateEntry, At, Walk, TreeValid,
        DecodeFrom, Extends, PrivateMap, UpperBound;
      cache := frameCache.root;
      RootHeld();
      ExtendsReflexive(frameCache.index);
      var gpid: nat := pid;
      var cf := cache.value.footprint;
      var local: nat := cf.locals[PROCESS];
      WalkStart(top, pid);
      while gpid > local
        invariant TreeValid() && Grown() && frameCache.Holds(cache)
        invariant LocalPath(top, cache.path) && Walk(top, cache.path, cf, local, gpid, pid)
        decreases gpid
      {
        var si := gpid - local;
        WalkStep(top, cache.path, cf, local, gpid, pid);
        var e := LocatePrivateEntry(cf, PROCESS, si - 1);
        gpid := si - e.lower;
        ghost var before := frameCache.index;
        cache := LookupLocalFootprintFrameCache(e.index, cache);
        ExtendsTransitive(old(frameCache.index), before, frameCache.index);
        ContextHeld(cache.path);
        cf := cache.value.footprint;
        local := Privates(cf, PROCESS);
      }
      WalkEnd(top, cache.path, cf, local, gpid, pid);
      lpid := gpid + cf.ports[PROCESS];
    }

    lemma ContextHeld(p: seq<nat>)
      requires TreeValid() && p in frameCache.index
      ensures frameCache.Holds(frameCache.index[p]) && frameCache.index[p].path == p
      ensures LocalPath(top, p) && frameCache.index[p].value.Value() == ContextAt(top, p)
    {
      hide WellFormed, Processes, ContextAt, LocalPath;
      assert frameCache.Linked(p) && Memo(p);
    }

    lemma RootHeld()
      requires TreeValid()
      ensures Top(top) && Processes(top) < NO_PID
      ensures frameCache.Holds(frameCache.root) && frameCache.root.path == [] && LocalPath(top, [])
      ensures frameCache.root.value.Value() == ContextAt(top, [])
    {
      hide WellFormed, Processes, ContextAt;
      ContextHeld([]);
    }

    lemma RootValid()
      requires Valid()
      ensures Top(top) && frameCache.Holds(frameCache.root) && frameCache.root.path == [] && LocalPath(top, [])
    {
      RootHeld();
    }

    /** Every node in the tree holds the right context. */
    lemma ValueHeld(n: CacheNode)
      requires Valid() && frameCache.Holds(n)
      ensures Top(top) && LocalPath(top, n.path) && n.value.Value() == ContextAt(top, n.path)
    {
      RootHeld();
      ContextHeld(n.path);
    }

    /** The context of a global process id. */
    method GetGlobalContext(pid: nat) returns (node: CacheNode)
      requires Valid() && pid <= Processes(top)
      modifies this, frameCache, frameCache.nodes
      ensures Valid() && Grown()
      ensures frameCache.Holds(node) && node.path == PathOf(top, pid)
      ensures LocalPath(top, node.path) && node.value.Value() == ContextAt(top, node.path)
      ensures asked == if pid == 0 then old(asked) else old(asked) + [pid]
    {
      hide WellFormed, Processes, ContextAt, Decode, LocalPath, Hot, TreeValid;
      RootHeld();
      if pid == 0 {
        return frameCache.root;
      }
      HotShape(top, frameCache.index, hotCache, cacheLru, asked);
      var second := 1 - cacheLru;
      if hotCache[cacheLru].pid == pid {
        HotHit(top, frameCache.index, hotCache, cacheLru, asked, cacheLru);
        node := hotCache[cacheLru].node;
      } else if hotCache[second].pid == pid {
        HotHit(top, frameCache.index, hotCache, cacheLru, asked, second);
        cacheLru := second;
        node := hotCache[second].node;
      } else {
        node := ReplaceOther(pid);
        return;
      }
      ContextHeld(node.path);
      asked := asked + [pid];
    }

    /** A miss in both hot slots: the one asked for less recently is overwritten. */
    method ReplaceOther(pid: nat) returns (node: CacheNode)
      requires Valid() && 1 <= pid <= Processes(top)
      requires pid != hotCache[0].pid && pid != hotCache[1].pid
      modifies this, frameCache, frameCache.nodes
      ensures Valid() && Grown()
      ensures frameCache.Holds(node) && node.path == Decode(top, pid)
      ensures LocalPath(top, node.path) && node.value.Value() == ContextAt(top, node.path)
      ensures asked == old(asked) + [pid]
    {
      hide WellFormed, Processes, ContextAt, Decode, LocalPath, Hot, TreeValid, Extends;
      RootHeld();
      HotShape(top, frameCache.index, hotCache, cacheLru, asked);
      var second := 1 - cacheLru;
      cacheLru := second;
      node := LookupGlobalFootprintFrameCache(pid);
      HotMiss(top, old(frameCache.index), frameCache.index, hotCache, 1 - second, asked, pid, node);
      hotCache := hotCache[second := HotSlot(pid, node)];
      ContextHeld(node.path);
      asked := asked + [pid];
    }

    /** Empties the hot slots, whose nodes may go away, and evicts part of the tree; the root
        stays, and what is left is still right. */
    method HalveCache()
      requires Valid()
      modifies this, frameCache`index, frameCache.nodes
      ensures Valid() && asked == []
      ensures frameCache.index.Keys <= old(frameCache.index.Keys)
      ensures frameCache.nodes == old(frameCache.nodes) && frameCache.values == old(frameCache.values)
    {
      hide WellFormed, Processes, ContextAt, LocalPath, Hot;
      HotShape(top, frameCache.index, hotCache, cacheLru, asked);
      hotCache := [HotSlot(NO_PID, null), HotSlot(NO_PID, null)];
      asked := [];
      RootHeld();
      frameCache.Halve(frameCache.root);
      HotEmpty(top, frameCache.index, cacheLru);
      forall p | p in frameCache.index
        ensures Memo(p)
      {
        assert old(Memo(p));
      }
    }
  }

  /** What the cache must compute for a new node is the next step of the uncached walk. */
  lemma DescendStep(top: Footprint, path: seq<nat>, lpid: nat)
    requires WellFormed(top) && LocalPath(top, path) && 1 <= lpid <= |At(top, path).procs|
    ensures LocalPath(top, path + [lpid])
    ensures var c := ContextAt(top, path);
      ContextAt(top, path + [lpid])
      == if lpid > c.footprint.ports[PROCESS] then PrivateChild(c, lpid, c.footprint == top)
         else PortChild(c, lpid)
  {
    PathSplit(top, path, lpid);
    assert (path + [lpid])[..|path|] == path;
  }

  /** Where the decoding loop stands: it has reached the process at path, whose footprint is
      cf, and what is left of the id decodes to what is left of the path. */
  ghost predicate Walk(top: Footprint, path: seq<nat>, cf: Footprint, local: nat, gpid: nat, pid: nat)
    requires Top(top) && LocalPath(top, path) && 1 <= pid <= Processes(top)
  {
    && cf == At(top, path) && local == Privates(cf, PROCESS)
    && 1 <= gpid <= local + Before(cf, PROCESS, |cf.procs|)
    && path + DecodeFrom(cf, local, gpid) == Decode(top, pid)
  }

  /** The loop starts from the whole id and, without top ports, from the top's private count. */
  lemma WalkStart(top: Footprint, pid: nat)
    requires Top(top) && 1 <= pid <= Processes(top)
    ensures LocalPath(top, []) && At(top, []) == top
    ensures Walk(top, [], top, top.locals[PROCESS], pid, pid)
  {
    hide WellFormed, DecodeFrom, Before;
  }

  /** One round of the decoding loop: the block found is in bounds, what remains of the id is
      smaller, positive and within the subprocess's total, and the path grows by one step. */
  lemma WalkStep(top: Footprint, path: seq<nat>, cf: Footprint, local: nat, gpid: nat, pid: nat)
    requires Top(top) && LocalPath(top, path) && 1 <= pid <= Processes(top)
    requires Walk(top, path, cf, local, gpid, pid) && gpid > local
    ensures cf == At(top, path) && UpperBound(PrivateMap(cf, PROCESS), gpid - local - 1) > 0
    ensures var e := LocatePrivateEntry(cf, PROCESS, gpid - local - 1);
      var sub := path + [e.index];
      && 1 <= e.index <= |cf.procs| && local > 0
      && 1 <= gpid - local - e.lower < gpid
      && LocalPath(top, sub)
      && Walk(top, sub, At(top, sub), Privates(At(top, sub), PROCESS), gpid - local - e.lower, pid)
  {
    hide WellFormed, Before, LocatePrivateEntry, At, LocalPath, DecodeFrom;
    LocatePrivateEntryCorrect(cf, PROCESS, gpid - local - 1);
    var e := LocatePrivateEntry(cf, PROCESS, gpid - local - 1);
    PathSplit(top, path, e.index);
    DecodeStep(cf, local, gpid);
  }

  lemma WalkEnd(top: Footprint, path: seq<nat>, cf: Footprint, local: nat, gpid: nat, pid: nat)
    requires Top(top) && LocalPath(top, path) && 1 <= pid <= Processes(top)
    requires Walk(top, path, cf, local, gpid, pid) && gpid <= local
    ensures cf == At(top, path) && 1 <= gpid + cf.ports[PROCESS] <= |cf.procs|
    ensures path + [gpid + cf.ports[PROCESS]] == Decode(top, pid)
  {
    hide WellFormed, Before, At, LocalPath, Decode;
  }

  lemma DecodeStep(f: Footprint, local: nat, gpid: nat)
    requires WellFormed(f) && local == Privates(f, PROCESS)
    requires local < gpid <= local + Before(f, PROCESS, |f.procs|)
    ensures UpperBound(PrivateMap(f, PROCESS), gpid - local - 1) > 0
    ensures var e := LocatePrivateEntry(f, PROCESS, gpid - local - 1);
      && f.ports[PROCESS] < e.index <= |f.procs|
      && 1 <= gpid - local - e.lower <= Total(Child(f, e.index), PROCESS)
      && DecodeFrom(f, local, gpid)
         == [e.index] + DecodeFrom(Child(f, e.index), Privates(Child(f, e.index), PROCESS), gpid - local - e.lower)
  {
    hide WellFormed, Before, LocatePrivateEntry;
    LocatePrivateEntryCorrect(f, PROCESS, gpid - local - 1);
  }
}
