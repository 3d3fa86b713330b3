/** Process contexts: the local-to-global translation frame of one process instance,
    together with the global offset of its private entries. */
module Frames {
  import opened Footprints
  import opened Numbering

  /** frame[t] lists, per local entry of meta-type t, the (1-based) global id;
      offset[t] is the number of global ids before the private entries. */
  datatype Context = Context(footprint: Footprint, frame: seq<seq<nat>>, offset: seq<nat>)

  ghost predicate Sized(c: Context) {
    && WellFormed(c.footprint) && |c.frame| == TAGS && |c.offset| == TAGS
    && forall t: Tag :: |c.frame[t]| == c.footprint.locals[t]
  }

  function Counting(from: nat, n: nat): (s: seq<nat>)
    ensures |s| == n && forall k | 0 <= k < n :: s[k] == from + k + 1
  {
    seq(n, k => from + k + 1)
  }

  /** Replaces each local id in l by the global id that a assigns to it. */
  function Through(l: seq<nat>, a: seq<nat>): (s: seq<nat>)
    requires forall k | 0 <= k < |l| :: 1 <= l[k] <= |a|
    ensures |s| == |l| && forall k | 0 <= k < |l| :: s[k] == a[l[k] - 1]
  {
    seq(|l|, k requires 0 <= k < |l| => a[l[k] - 1])
  }

  /** The ids passed in through ports, extended by the ids of private entries. */
  function Extended(locals: nat, actuals: seq<nat>, offset: nat): seq<nat>
    requires |actuals| <= locals
  {
    actuals + Counting(offset, locals - |actuals|)
  }

  /** Translation of a port map, one element at a time. */
  method TranslateActuals(l: seq<nat>, a: seq<nat>) returns (idMap: seq<nat>)
    requires forall k | 0 <= k < |l| :: 1 <= l[k] <= |a|
    ensures idMap == Through(l, a)
  {
    var m := new nat[|l|];
    for i := 0 to |l|
      invariant m[..i] == Through(l, a)[..i]
    {
      m[i] := a[l[i] - 1];
    }
    idMap := m[..];
  }

  /** Fills a map of the local size: ports are copied, the rest is numbered from the offset.
      The distance delta may be negative; the ids themselves never are. */
  method ConstructGlobalContext(locals: nat, context: seq<nat>, offset: nat) returns (idMap: seq<nat>)
    requires |context| <= locals
    ensures idMap == Extended(locals, context, offset)
  {
    var m := new nat[locals];
    var s := |context|;
    var i := 0;
    while i < s
      invariant 0 <= i <= s && m[..i] == context[..i]
    {
      m[i] := context[i];
      i := i + 1;
    }
    var delta: int := offset - s + 1;
    while i < locals
      invariant s <= i <= locals && m[..i] == Extended(locals, context, offset)[..i]
    {
      m[i] := i + delta;
      i := i + 1;
    }
    idMap := m[..];
  }

  function TopContext(top: Footprint): (c: Context)
    requires WellFormed(top)
    ensures Sized(c)
  {
    Context(top, seq(TAGS, t requires 0 <= t < TAGS => Counting(0, top.locals[t])), seq(TAGS, t => 0))
  }

  /** The frame of the lpid-th process of c, whose private entries start after the given offset. */
  function ChildContext(c: Context, lpid: nat, offset: seq<nat>): (d: Context)
    requires Sized(c) && 1 <= lpid <= |c.footprint.procs| && |offset| == TAGS
    ensures Sized(d) && d.footprint == Child(c.footprint, lpid) && d.offset == offset
    ensures forall t: Tag :: d.frame[t] ==
              Extended(d.footprint.locals[t], Through(c.footprint.procs[lpid - 1].actuals[t], c.frame[t]), offset[t])
  {
    var p := c.footprint.procs[lpid - 1];
    Context(p.body,
            seq(TAGS, t requires 0 <= t < TAGS =>
              Extended(p.body.locals[t], Through(p.actuals[t], c.frame[t]), offset[t])),
            offset)
  }

  /** The offset of the lpid-th process: past the entries of the enclosing process itself
      (its ports as well, at the top) and past those owned by the processes before it. */
  function ChildOffset(c: Context, lpid: nat, isTop: bool): (o: seq<nat>)
    requires Sized(c) && 1 <= lpid <= |c.footprint.procs|
    ensures |o| == TAGS
  {
    var f := c.footprint;
    seq(TAGS, t requires 0 <= t < TAGS =>
      LocateCumulativeEntry(f, t, lpid).lower + c.offset[t] + if isTop then f.locals[t] else Privates(f, t))
  }

  function PrivateChild(c: Context, lpid: nat, isTop: bool): (d: Context)
    requires Sized(c) && 1 <= lpid <= |c.footprint.procs|
    ensures Sized(d) && d.footprint == Child(c.footprint, lpid)
  {
    ChildContext(c, lpid, ChildOffset(c, lpid, isTop))
  }

  /** Going down a port leaves the offset alone. */
  function PortChild(c: Context, lpid: nat): (d: Context)
    requires Sized(c) && 1 <= lpid <= |c.footprint.procs|
    ensures Sized(d) && d.footprint == Child(c.footprint, lpid)
  {
    ChildContext(c, lpid, c.offset)
  }

  /** One step down, as the cache takes it. */
  function Descend(top: Footprint, c: Context, lpid: nat): (d: Context)
    requires Sized(c) && 1 <= lpid <= |c.footprint.procs|
    ensures Sized(d) && d.footprint == Child(c.footprint, lpid)
  {
    if lpid > c.footprint.ports[PROCESS] then PrivateChild(c, lpid, c.footprint == top) else PortChild(c, lpid)
  }

  /** The context of a process, built step by step from the top. */
  function ContextAt(top: Footprint, path: seq<nat>): (c: Context)
    requires WellFormed(top) && LocalPath(top, path)
    ensures Sized(c) && c.footprint == At(top, path)
    decreases |path|
  {
    if path == [] then TopContext(top)
    else
      var parent, last := path[..|path| - 1], path[|path| - 1];
      assert path == parent + [last];
      PathSplit(top, parent, last);
      Descend(top, ContextAt(top, parent), last)
  }

  /** A context object; descending overwrites it, and may start from the object itself. */
  class ProcessContext {
    var footprint: Footprint
    var frame: seq<seq<nat>>
    var offset: seq<nat>

    function Value(): Context
      reads this
    {
      Context(footprint, frame, offset)
    }

    constructor ()
    {
      footprint, frame, offset := Footprint([], [], 0, []), [], [];
    }

    method ConstructTopGlobalContext(top: Footprint)
      requires WellFormed(top)
      modifies this
      ensures Value() == TopContext(top)
    {
      footprint, offset := top, seq(TAGS, t => 0);
      frame := [];
      var t := 0;
      while t < TAGS
        invariant 0 <= t <= TAGS && |frame| == t && frame == TopContext(top).frame[..t]
        invariant footprint == top && offset == TopContext(top).offset
      {
        var idMap := ConstructGlobalContext(top.locals[t], [], offset[t]);
        assert idMap == Counting(0, top.locals[t]);
        frame := frame + [idMap];
        t := t + 1;
      }
    }

    method DescendFrame(gpc: ProcessContext, lpid: nat, isTop: bool)
      requires Sized(gpc.Value()) && 1 <= lpid <= |gpc.footprint.procs|
      modifies this
      ensures Value() == PrivateChild(old(gpc.Value()), lpid, isTop)
    {
      offset := ChildOffset(gpc.Value(), lpid, isTop);
      ConstructFrame(gpc, lpid);
    }

    method DescendPort(gpc: ProcessContext, lpid: nat)
      requires Sized(gpc.Value()) && 1 <= lpid <= |gpc.footprint.procs|
      modifies this
      ensures Value() == PortChild(old(gpc.Value()), lpid)
    {
      if gpc != this {
        offset := gpc.offset;
      }
      ConstructFrame(gpc, lpid);
    }

    /** Builds the frame of a process of gpc for the offset already set. */
    method ConstructFrame(gpc: ProcessContext, lpid: nat)
      requires Sized(Context(gpc.footprint, gpc.frame, offset)) && 1 <= lpid <= |gpc.footprint.procs|
      modifies this`footprint, this`frame
      ensures Value() == ChildContext(old(Context(gpc.footprint, gpc.frame, offset)), lpid, offset)
    {
      var p, actuals := gpc.footprint.procs[lpid - 1], gpc.frame;
      assert Connected(gpc.footprint, p);
      ghost var d := ChildContext(Context(gpc.footprint, gpc.frame, offset), lpid, offset);
      var built: seq<seq<nat>> := [];
      var t := 0;
      while t < TAGS
        invariant 0 <= t <= TAGS && |built| == t && built == d.frame[..t]
      {
        var ports := TranslateActuals(p.actuals[t], actuals[t]);
        var idMap := ConstructGlobalContext(p.body.locals[t], ports, offset[t]);
        built := built + [idMap];
        t := t + 1;
      }
      footprint, frame := p.body, built;
    }
  }

  // ---- resolving one id from scratch ----

  /** The local id, in the enclosing footprint, of what a port of a process is connected to. */
  function Actual(f: Footprint, lpid: nat, t: Tag, lid: nat): (l: nat)
    requires WellFormed(f) && 1 <= lpid <= |f.procs| && 1 <= lid <= Child(f, lpid).ports[t]
    ensures 1 <= l <= f.locals[t]
  {
    ConnectedAt(f, lpid);
    f.procs[lpid - 1].actuals[t][lid - 1]
  }

  /** A process port is connected to a process of the same type. */
  predicate TypesMatch(f: Footprint)
    requires WellFormed(f)
  {
    && PortTypesMatch(f)
    && (forall i | 0 <= i < |f.procs| :: TypesMatch(f.procs[i].body))
  }

  predicate PortTypesMatch(f: Footprint)
    requires WellFormed(f)
  {
    forall lpid, l | 1 <= lpid <= |f.procs| && 1 <= l <= Child(f, lpid).ports[PROCESS] ::
      Child(Child(f, lpid), l) == Child(f, Actual(f, lpid, PROCESS, l))
  }

  lemma {:induction false} TypesMatchAt(f: Footprint, path: seq<nat>)
    requires WellFormed(f) && TypesMatch(f) && LocalPath(f, path)
    ensures TypesMatch(At(f, path))
    decreases |path|
  {
    hide WellFormed;
    if path != [] {
      TypesMatchAt(Child(f, path[0]), path[1..]);
    }
  }

  /** The private process that the l-th process of the one at path is: itself, unless it is a
      port, which is whatever it is connected to in the enclosing process. */
  function Named(top: Footprint, path: seq<nat>, l: nat): (q: seq<nat>)
    requires Top(top) && TypesMatch(top) && PrivatePath(top, path) && 1 <= l <= |At(top, path).procs|
    ensures PrivatePath(top, q) && q != [] && At(top, q) == Child(At(top, path), l)
    decreases |path|
  {
    if l > At(top, path).ports[PROCESS] then
      PathSplit(top, path, l);
      path + [l]
    else
      var parent, last := path[..|path| - 1], path[|path| - 1];
      assert path == parent + [last];
      PathSplit(top, parent, last);
      TypesMatchAt(top, parent);
      Named(top, parent, Actual(At(top, parent), last, PROCESS, l))
  }

  /** The private process that a path leads to when its ports are followed. */
  function TruePath(top: Footprint, path: seq<nat>): (q: seq<nat>)
    requires Top(top) && TypesMatch(top) && LocalPath(top, path)
    ensures PrivatePath(top, q) && At(top, q) == At(top, path)
    ensures PrivatePath(top, path) ==> q == path
    decreases |path|
  {
    if path == [] then []
    else
      var parent, last := path[..|path| - 1], path[|path| - 1];
      assert path == parent + [last];
      PathSplit(top, parent, last);
      Named(top, TruePath(top, parent), last)
  }

  /** The (1-based) global id of a local id, found by climbing: a port is whatever it is
      connected to in the enclosing process, a private entry is numbered after everything
      that precedes the process it belongs to. */
  ghost function Resolve(top: Footprint, t: Tag, path: seq<nat>, lid: nat): nat
    requires Top(top) && LocalPath(top, path) && (PrivatePath(top, path) || TypesMatch(top))
    requires 1 <= lid <= At(top, path).locals[t]
    decreases |path|
  {
    if path == [] then lid
    else
      var parent, last := path[..|path| - 1], path[|path| - 1];
      assert path == parent + [last];
      PathSplit(top, parent, last);
      if lid <= At(top, path).ports[t] then Resolve(top, t, parent, Actual(At(top, parent), last, t, lid))
      else Offset(top, t, if PrivatePath(top, path) then path else TruePath(top, path)) + lid - At(top, path).ports[t]
  }

  /** Where the climb ends: at the process that has the entry as a private one. */
  ghost function Binder(top: Footprint, t: Tag, path: seq<nat>, lid: nat): (q: seq<nat>)
    requires WellFormed(top) && LocalPath(top, path) && 1 <= lid <= At(top, path).locals[t]
    ensures q <= path && LocalPath(top, q)
    ensures PrivatePath(top, path) ==> PrivatePath(top, q)
    decreases |path|
  {
    if path == [] then []
    else
      var parent, last := path[..|path| - 1], path[|path| - 1];
      assert path == parent + [last];
      PathSplit(top, parent, last);
      if lid <= At(top, path).ports[t] then Binder(top, t, parent, Actual(At(top, parent), last, t, lid)) else path
  }

  lemma {:induction false} OffsetSplit(f: Footprint, t: Tag, path: seq<nat>, last: nat)
    requires WellFormed(f) && PrivatePath(f, path + [last])
    ensures PrivatePath(f, path) && f.ports[PROCESS] <= |f.procs|
    ensures 1 <= last <= |At(f, path).procs|
    ensures Offset(f, t, path + [last])
         == Offset(f, t, path) + Privates(At(f, path), t) + Before(At(f, path), t, last - 1)
    decreases |path|
  {
    hide WellFormed, Before;
    PathSplit(f, path, last);
    if path == [] {
      assert ([last])[1..] == [];
    } else {
      assert (path + [last])[1..] == path[1..] + [last] && (path + [last])[0] == path[0];
      OffsetSplit(Child(f, path[0]), t, path[1..], last);
    }
  }

  /** Along private processes the running offset is the number of preceding entries. */
  lemma {:induction false} OffsetsCompose(top: Footprint, t: Tag, path: seq<nat>)
    requires Top(top) && PrivatePath(top, path)
    ensures ContextAt(top, path).offset[t] == Offset(top, t, path)
    decreases |path|
  {
    hide WellFormed, Before, LocateCumulativeEntry, Offset;
    if path == [] {
      OffsetOfTop(top, t);
    } else {
      var parent, last := path[..|path| - 1], path[|path| - 1];
      assert path == parent + [last];
      OffsetSplit(top, t, parent, last);
      PathSplit(top, parent, last);
      OffsetsCompose(top, t, parent);
      LocateCumulativeEntryCorrect(At(top, parent), t, last);
    }
  }

  lemma OffsetOfTop(top: Footprint, t: Tag)
    requires WellFormed(top)
    ensures Offset(top, t, []) == 0
  {
  }

  /** What walking down a path adds up: a private process comes after the entries of the
      enclosing one and those of the processes before it, a port adds nothing. */
  function Walked(top: Footprint, t: Tag, path: seq<nat>): nat
    requires WellFormed(top) && LocalPath(top, path)
    decreases |path|
  {
    if path == [] then 0
    else
      var parent, last := path[..|path| - 1], path[|path| - 1];
      assert path == parent + [last];
      PathSplit(top, parent, last);
      var f := At(top, parent);
      Walked(top, t, parent) + if last > f.ports[PROCESS] then Privates(f, t) + Before(f, t, last - 1) else 0
  }

  lemma {:induction false} OffsetsWalked(top: Footprint, t: Tag, path: seq<nat>)
    requires Top(top) && LocalPath(top, path)
    ensures ContextAt(top, path).offset[t] == Walked(top, t, path)
    decreases |path|
  {
    hide WellFormed, Before, At, LocalPath, ContextAt, Walked, PrivateChild, PortChild;
    if path == [] {
      NothingWalked(top, t);
    } else {
      var parent, last := path[..|path| - 1], path[|path| - 1];
      assert path == parent + [last];
      PathSplit(top, parent, last);
      OffsetsWalked(top, t, parent);
      StepTaken(top, t, parent, last);
      var c := ContextAt(top, parent);
      OffsetStep(c, last, c.footprint == top, t);
    }
  }

  lemma NothingWalked(top: Footprint, t: Tag)
    requires WellFormed(top) && LocalPath(top, [])
    ensures ContextAt(top, []).offset[t] == Walked(top, t, []) == 0
  {
    hide WellFormed;
  }

  lemma StepTaken(top: Footprint, t: Tag, path: seq<nat>, lpid: nat)
    requires WellFormed(top) && LocalPath(top, path) && 1 <= lpid <= |At(top, path).procs|
    ensures LocalPath(top, path + [lpid])
    ensures var f := At(top, path);
      && ContextAt(top, path + [lpid]) == Descend(top, ContextAt(top, path), lpid)
      && Walked(top, t, path + [lpid])
         == Walked(top, t, path) + if lpid > f.ports[PROCESS] then Privates(f, t) + Before(f, t, lpid - 1) else 0
  {
    hide WellFormed, Before, At, LocalPath, Descend;
    PathSplit(top, path, lpid);
    assert (path + [lpid])[..|path|] == path;
  }

  /** What one step adds to the offset. */
  lemma OffsetStep(c: Context, lpid: nat, isTop: bool, t: Tag)
    requires Sized(c) && 1 <= lpid <= |c.footprint.procs| && (isTop ==> Top(c.footprint))
    ensures var f := c.footprint;
      && PortChild(c, lpid).offset[t] == c.offset[t]
      && PrivateChild(c, lpid, isTop).offset[t] == c.offset[t] + Privates(f, t) + Before(f, t, lpid - 1)
  {
    hide WellFormed, Before, LocateCumulativeEntry;
    LocateCumulativeEntryCorrect(c.footprint, t, lpid);
  }

  lemma ContextAtChild(top: Footprint, path: seq<nat>, lpid: nat)
    requires WellFormed(top) && LocalPath(top, path) && 1 <= lpid <= |At(top, path).procs|
    ensures LocalPath(top, path + [lpid]) && At(top, path + [lpid]) == Child(At(top, path), lpid)
    ensures ContextAt(top, path + [lpid])
         == ChildContext(ContextAt(top, path), lpid, ContextAt(top, path + [lpid]).offset)
  {
    hide WellFormed, At, ChildOffset, LocalPath, ChildContext;
    PathSplit(top, path, lpid);
    assert (path + [lpid])[..|path|] == path;
  }

  /** One entry of a frame along a path: a number past the offset, or the entry of the
      enclosing frame that is passed in. */
  lemma FrameEntry(top: Footprint, t: Tag, path: seq<nat>, lpid: nat, lid: nat)
    requires WellFormed(top) && LocalPath(top, path) && 1 <= lpid <= |At(top, path).procs|
    requires 1 <= lid <= Child(At(top, path), lpid).locals[t]
    ensures LocalPath(top, path + [lpid]) && At(top, path + [lpid]) == Child(At(top, path), lpid)
    ensures var c, child := ContextAt(top, path + [lpid]), Child(At(top, path), lpid);
      c.frame[t][lid - 1]
      == if lid <= child.ports[t] then ContextAt(top, path).frame[t][Actual(At(top, path), lpid, t, lid) - 1]
         else c.offset[t] + lid - child.ports[t]
  {
    hide WellFormed, ContextAt, At, LocalPath, ChildContext;
    ContextAtChild(top, path, lpid);
    ChildEntry(ContextAt(top, path), lpid, ContextAt(top, path + [lpid]).offset, t, lid);
  }

  lemma ClimbStep(top: Footprint, t: Tag, path: seq<nat>, lpid: nat, lid: nat)
    requires Top(top) && LocalPath(top, path) && 1 <= lpid <= |At(top, path).procs|
    requires PrivatePath(top, path + [lpid]) || TypesMatch(top)
    requires 1 <= lid <= Child(At(top, path), lpid).locals[t]
    ensures LocalPath(top, path + [lpid]) && At(top, path + [lpid]) == Child(At(top, path), lpid)
    ensures PrivatePath(top, path + [lpid]) ==> PrivatePath(top, path)
    ensures var sub, child := path + [lpid], Child(At(top, path), lpid);
      && Binder(top, t, sub, lid)
         == (if lid <= child.ports[t] then Binder(top, t, path, Actual(At(top, path), lpid, t, lid)) else sub)
      && Resolve(top, t, sub, lid)
         == if lid <= child.ports[t] then Resolve(top, t, path, Actual(At(top, path), lpid, t, lid))
            else Offset(top, t, if PrivatePath(top, sub) then sub else TruePath(top, sub)) + lid - child.ports[t]
  {
    hide WellFormed, PrivatePath, TypesMatch, TruePath, Offset, At, LocalPath;
    PathSplit(top, path, lpid);
    assert (path + [lpid])[..|path|] == path;
  }

  /** Frames compose, exactly: at every depth and along every path, ports included, the frame
      built step by step maps a local id to the same global id as climbing from scratch does
      if and only if what the walk adds up on the way to where the climb ends is what precedes
      the process that is there. */
  lemma {:induction false} FramesComposeExactly(top: Footprint, t: Tag, path: seq<nat>, lid: nat)
    requires Top(top) && TypesMatch(top) && LocalPath(top, path) && 1 <= lid <= At(top, path).locals[t]
    ensures var q := Binder(top, t, path, lid);
      ContextAt(top, path).frame[t][lid - 1] == Resolve(top, t, path, lid)
      <==> Walked(top, t, q) == Offset(top, t, TruePath(top, q))
    decreases |path|
  {
    hide WellFormed, Offset, ContextAt, PrivatePath, TypesMatch, TruePath, Actual, Resolve, Binder, At, LocalPath, Walked;
    OffsetsWalked(top, t, path);
    if path == [] {
      ClimbOfTop(top, t, lid);
    } else {
      var parent, last := path[..|path| - 1], path[|path| - 1];
      assert path == parent + [last];
      PathSplit(top, parent, last);
      FrameEntry(top, t, parent, last, lid);
      ClimbStep(top, t, parent, last, lid);
      if lid <= At(top, path).ports[t] {
        FramesComposeExactly(top, t, parent, Actual(At(top, parent), last, t, lid));
      }
    }
  }

  lemma ClimbOfTop(top: Footprint, t: Tag, lid: nat)
    requires Top(top) && TypesMatch(top) && LocalPath(top, []) && 1 <= lid <= At(top, []).locals[t]
    ensures ContextAt(top, []).frame[t][lid - 1] == Resolve(top, t, [], lid) == lid
    ensures Binder(top, t, [], lid) == [] && Walked(top, t, []) == Offset(top, t, TruePath(top, []))
  {
    hide WellFormed, TypesMatch;
  }

  /** So along private processes every id in every frame is right. */
  lemma {:induction false} FramesCompose(top: Footprint, t: Tag, path: seq<nat>, lid: nat)
    requires Top(top) && PrivatePath(top, path) && 1 <= lid <= At(top, path).locals[t]
    ensures ContextAt(top, path).frame[t][lid - 1] == Resolve(top, t, path, lid)
    decreases |path|
  {
    hide WellFormed, Offset, PrivatePath, Actual, LocalPath, ContextAt, At, Resolve, Binder;
    if path == [] {
      EntryOfTop(top, t, lid);
    } else {
      var parent, last := path[..|path| - 1], path[|path| - 1];
      assert path == parent + [last];
      PathSplit(top, parent, last);
      FrameEntry(top, t, parent, last, lid);
      ClimbStep(top, t, parent, last, lid);
      if lid <= At(top, path).ports[t] {
        FramesCompose(top, t, parent, Actual(At(top, parent), last, t, lid));
      } else {
        OffsetsCompose(top, t, path);
      }
    }
  }

  lemma EntryOfTop(top: Footprint, t: Tag, lid: nat)
    requires Top(top) && PrivatePath(top, []) && 1 <= lid <= At(top, []).locals[t]
    ensures ContextAt(top, []).frame[t][lid - 1] == Resolve(top, t, [], lid)
  {
    hide WellFormed;
  }

  /** One entry of a child frame: a translated port, or a number past the offset. */
  lemma ChildEntry(c: Context, lpid: nat, offset: seq<nat>, t: Tag, lid: nat)
    requires Sized(c) && 1 <= lpid <= |c.footprint.procs| && |offset| == TAGS
    requires 1 <= lid <= Child(c.footprint, lpid).locals[t]
    ensures var p := c.footprint.procs[lpid - 1];
      && Connected(c.footprint, p)
      && ChildContext(c, lpid, offset).frame[t][lid - 1]
         == if lid <= p.body.ports[t] then c.frame[t][p.actuals[t][lid - 1] - 1]
            else offset[t] + lid - p.body.ports[t]
  {
    hide WellFormed;
    ConnectedAt(c.footprint, lpid);
  }

  lemma ConnectedAt(f: Footprint, lpid: nat)
    requires WellFormed(f) && 1 <= lpid <= |f.procs|
    ensures Connected(f, f.procs[lpid - 1])
  {
  }

  /** The k-th private entry of a private process is numbered k past its offset. */
  lemma PrivateEntryResolves(top: Footprint, t: Tag, path: seq<nat>, k: nat)
    requires Top(top) && PrivatePath(top, path) && 1 <= k <= Privates(At(top, path), t)
    ensures Resolve(top, t, path, At(top, path).ports[t] + k) == Offset(top, t, path) + k
  {
    hide WellFormed, Before, Offset, PrivatePath;
    if path == [] {
      OffsetOfTop(top, t);
    } else {
      assert path == path[..|path| - 1] + [path[|path| - 1]];
      PathSplit(top, path[..|path| - 1], path[|path| - 1]);
    }
  }

  /** What stepping down a port does to private ids, exactly.  The port is connected to the
      private process at q, whose k-th private entry has the id k past the offset of q.  The
      step keeps the offset of the enclosing process, so the frame shows the id k past that:
      the right one if and only if the two offsets are equal. */
  lemma PortPrivatesExactly(top: Footprint, t: Tag, path: seq<nat>, lpid: nat, k: nat)
    requires Top(top) && TypesMatch(top) && PrivatePath(top, path) && 1 <= lpid <= At(top, path).ports[PROCESS]
    requires LocalPath(top, path + [lpid]) && 1 <= k <= Privates(At(top, path + [lpid]), t)
    ensures var q, lid := Named(top, path, lpid), At(top, path + [lpid]).ports[t] + k;
      && At(top, q) == At(top, path + [lpid])
      && Resolve(top, t, path + [lpid], lid) == Resolve(top, t, q, lid) == Offset(top, t, q) + k
      && ContextAt(top, path + [lpid]).frame[t][lid - 1] == Offset(top, t, path) + k
      && (ContextAt(top, path + [lpid]).frame[t][lid - 1] == Resolve(top, t, path + [lpid], lid)
          <==> Offset(top, t, path) == Offset(top, t, q))
  {
    hide WellFormed, Offset, PrivatePath, LocalPath, ContextAt, TypesMatch, Named, At, Resolve, TruePath, Binder;
    PathSplit(top, path, lpid);
    OffsetsCompose(top, t, path);
    PortStep(top, path, lpid);
    FrameEntry(top, t, path, lpid, At(top, path + [lpid]).ports[t] + k);
    ClimbStep(top, t, path, lpid, At(top, path + [lpid]).ports[t] + k);
    PrivateEntryResolves(top, t, Named(top, path, lpid), k);
  }

  lemma PortStep(top: Footprint, path: seq<nat>, lpid: nat)
    requires Top(top) && TypesMatch(top) && PrivatePath(top, path) && 1 <= lpid <= At(top, path).ports[PROCESS]
    ensures LocalPath(top, path + [lpid]) && !PrivatePath(top, path + [lpid])
    ensures ContextAt(top, path + [lpid]).offset == ContextAt(top, path).offset
    ensures TruePath(top, path + [lpid]) == Named(top, path, lpid)
  {
    hide WellFormed, PrivatePath, TypesMatch, Named, At, LocalPath;
    PathSplit(top, path, lpid);
    assert (path + [lpid])[..|path|] == path;
  }

  /** In terms of what is owned: the id is right if and only if the process behind the port is
      numbered after the enclosing one and nothing of the meta-type is owned in between, the
      enclosing one included. */
  lemma PortPrivatesRight(top: Footprint, t: Tag, path: seq<nat>, lpid: nat, k: nat)
    requires Top(top) && TypesMatch(top) && PrivatePath(top, path) && 1 <= lpid <= At(top, path).ports[PROCESS]
    requires LocalPath(top, path + [lpid]) && 1 <= k <= Privates(At(top, path + [lpid]), t)
    requires MappedPath(top, path) && MappedPath(top, Named(top, path, lpid))
    ensures var q, lid := Named(top, path, lpid), At(top, path + [lpid]).ports[t] + k;
      ContextAt(top, path + [lpid]).frame[t][lid - 1] == Resolve(top, t, path + [lpid], lid)
      <==> Precedes(path, q) && NothingFrom(top, t, path, q)
  {
    hide WellFormed, Offset, PrivatePath, LocalPath, ContextAt, TypesMatch, Named, At, Resolve, Precedes, MappedPath;
    PathSplit(top, path, lpid);
    PortPrivatesExactly(top, t, path, lpid, k);
    SameOffsetExactly(top, t, path, Named(top, path, lpid));
  }

  /** Wherever the enclosing process has private entries of its own, the id shown is wrong:
      it belongs to the enclosing process, or to something after it. */
  lemma PortPrivatesWrong(top: Footprint, t: Tag, path: seq<nat>, lpid: nat)
    requires Top(top) && TypesMatch(top) && Complete(top, t) && PrivatePath(top, path)
    requires 1 <= lpid <= At(top, path).ports[PROCESS] && LocalPath(top, path + [lpid])
    requires Privates(At(top, path + [lpid]), t) > 0 && Privates(At(top, path), t) > 0
    ensures Offset(top, t, path) != Offset(top, t, Named(top, path, lpid))
  {
    hide WellFormed, Before, Offset, PrivatePath, TypesMatch, Named, Complete, At;
    PathSplit(top, path, lpid);
    var q := Named(top, path, lpid);
    assert InRangeOf(top, t, path, Offset(top, t, path)) && InRangeOf(top, t, q, Offset(top, t, q));
    IndexSpaceConserved(top, t, Offset(top, t, path));
  }

  /** The process that a frame names, exactly: decoding the process id that the frame of a
      private process shows for one of its processes, port or not, leads to the process that it
      is, if and only if that one is local to the top or reached through its maps. */
  lemma {:induction false} FrameNames(top: Footprint, path: seq<nat>, l: nat)
    requires Top(top) && TypesMatch(top)
    requires PrivatePath(top, path) && 1 <= l <= |At(top, path).procs|
    ensures var gpid, q := ContextAt(top, path).frame[PROCESS][l - 1], Named(top, path, l);
      1 <= gpid <= Processes(top) && Decode(top, gpid) == q <==> |q| == 1 || MappedPath(top, q)
    decreases |path|
  {
    hide WellFormed, Offset, PrivatePath, ContextAt, TypesMatch, MappedPath, Decode, Processes, Actual, At, LocalPath;
    if l > At(top, path).ports[PROCESS] {
      OwnProcessNamed(top, path, l);
    } else {
      TopHasNoPorts(top, path);
      var parent, last := path[..|path| - 1], path[|path| - 1];
      assert path == parent + [last];
      PathSplit(top, parent, last);
      FrameEntry(top, PROCESS, parent, last, l);
      FrameNames(top, parent, Actual(At(top, parent), last, PROCESS, l));
    }
  }

  lemma TopHasNoPorts(top: Footprint, path: seq<nat>)
    requires Top(top) && LocalPath(top, path) && At(top, path).ports[PROCESS] > 0
    ensures path != []
  {
  }

  lemma OwnProcessNamed(top: Footprint, path: seq<nat>, l: nat)
    requires Top(top) && PrivatePath(top, path) && At(top, path).ports[PROCESS] < l <= |At(top, path).procs|
    ensures var gpid, q := ContextAt(top, path).frame[PROCESS][l - 1], path + [l];
      && PrivatePath(top, q)
      && (1 <= gpid <= Processes(top) && Decode(top, gpid) == q <==> |q| == 1 || MappedPath(top, q))
  {
    hide WellFormed, PrivatePath, ContextAt, MappedPath, Decode, Processes, At, LocalPath, ProcessId;
    OwnProcessId(top, path, l);
    HasIdExactly(top, path + [l]);
    if |path + [l]| == 1 || MappedPath(top, path + [l]) {
      DecodeEncode(top, path + [l]);
    }
  }

  lemma OwnProcessId(top: Footprint, path: seq<nat>, l: nat)
    requires Top(top) && PrivatePath(top, path) && At(top, path).ports[PROCESS] < l <= |At(top, path).procs|
    ensures ProcessPath(top, path + [l])
    ensures ContextAt(top, path).frame[PROCESS][l - 1] == ProcessId(top, path + [l])
  {
    hide WellFormed, Offset, PrivatePath, ContextAt, Resolve, At, LocalPath;
    PathSplit(top, path, l);
    FramesCompose(top, PROCESS, path, l);
    PrivateEntryResolves(top, PROCESS, path, l - At(top, path).ports[PROCESS]);
    assert PlaceOf(path + [l]) == Place(path, l - 1);
    ProcessPathIsOwned(top, path + [l]);
  }

  // ---- a process port whose private entry is shown with the wrong id ----

  /** A process with one private bool. */
  function WithBool(): Footprint {
    Footprint(Zeros(), [0, 0, 0, 0, 1], 0, [])
  }

  /** A process with a process port of the type above, and a private bool of its own. */
  function WithPort(): Footprint {
    Footprint([1, 0, 0, 0, 0], [1, 0, 0, 0, 1], 1, [Instance(NoActuals(), WithBool())])
  }

  /** The first process is connected to the port of the second. */
  function PortTop(): Footprint {
    Footprint(Zeros(), [2, 0, 0, 0, 0], 0,
              [Instance(NoActuals(), WithBool()), Instance([[1], [], [], [], []], WithPort())])
  }

  /** The bool of the first process has id 1; reached through the port it is shown as 2, the id
      of the second process's own bool. */
  lemma PortExample()
    ensures Top(PortTop()) && TypesMatch(PortTop())
    ensures LocalPath(PortTop(), [2, 1]) && At(PortTop(), [2, 1]) == WithBool()
    ensures Resolve(PortTop(), 4, [2, 1], 1) == 1 && ContextAt(PortTop(), [2, 1]).frame[4][0] == 2
  {
    hide TypesMatch, WellFormed, ContextAt, Resolve;
    var top := PortTop();
    PortTopShape();
    PortTopPaths();
    PortTopOffsets();
    PortPrivatesExactly(top, 4, [2], 1, 1);
  }

  lemma PortTopShape()
    ensures WellFormed(PortTop()) && Top(PortTop()) && TypesMatch(PortTop())
  {
    hide WellFormed, TypesMatch;
    WithPortShape();
    PortTopWellFormed();
    PortTopTypes();
  }

  lemma WithPortShape()
    ensures WellFormed(WithBool()) && TypesMatch(WithBool())
    ensures WellFormed(WithPort()) && TypesMatch(WithPort())
  {
    assert WellFormed(WithBool()) && TypesMatch(WithBool());
    assert Connected(WithPort(), WithPort().procs[0]);
    assert WellFormed(WithPort());
  }

  lemma PortTopWellFormed()
    requires WellFormed(WithBool()) && WellFormed(WithPort())
    ensures WellFormed(PortTop()) && Top(PortTop())
  {
    hide TypesMatch, WellFormed;
    var top := PortTop();
    assert top.procs[0].body == WithBool() && top.procs[1].body == WithPort();
    assert Connected(top, top.procs[0]) && Connected(top, top.procs[1]);
    TwoProcesses(top);
  }

  lemma TwoProcesses(f: Footprint)
    requires Shaped(f) && |f.procs| == 2 && Connected(f, f.procs[0]) && Connected(f, f.procs[1])
    requires WellFormed(f.procs[0].body) && WellFormed(f.procs[1].body)
    requires Allocated(f.procs[0].body) && Allocated(f.procs[1].body)
    ensures WellFormed(f)
  {
    hide Connected, Allocated;
  }

  lemma PortTopTypes()
    requires WellFormed(PortTop()) && WellFormed(WithBool()) && WellFormed(WithPort())
    requires TypesMatch(WithBool()) && TypesMatch(WithPort())
    ensures TypesMatch(PortTop())
  {
    hide WellFormed;
    var top := PortTop();
    assert Child(top, 1) == WithBool() && Child(top, 2) == WithPort() && Child(WithPort(), 1) == WithBool();
    assert PortTypesMatch(top);
  }

  lemma PortTopPaths()
    requires WellFormed(PortTop()) && Top(PortTop()) && TypesMatch(PortTop())
    ensures var top := PortTop();
      && PrivatePath(top, [1]) && At(top, [1]) == WithBool()
      && PrivatePath(top, [2]) && At(top, [2]) == WithPort()
      && LocalPath(top, [2] + [1]) && At(top, [2] + [1]) == WithBool() && [2] + [1] == [2, 1]
      && Named(top, [2], 1) == [1]
  {
    hide WellFormed, TypesMatch;
    var top := PortTop();
    assert Child(top, 1) == WithBool() && Child(top, 2) == WithPort();
    assert [1][1..] == [] && [2][1..] == [] && [1][..0] == [] && [2][..0] == [];
    PathSplit(top, [2], 1);
    assert Child(WithPort(), 1) == WithBool();
    assert Actual(top, 2, PROCESS, 1) == 1;
    assert Named(top, [], 1) == [1];
  }

  lemma PortTopOffsets()
    requires WellFormed(PortTop()) && PrivatePath(PortTop(), [1]) && PrivatePath(PortTop(), [2])
    ensures Offset(PortTop(), 4, [1]) == 0 && Offset(PortTop(), 4, [2]) == 1
  {
    hide WellFormed;
    var top := PortTop();
    assert Child(top, 1) == WithBool() && Total(WithBool(), 4) == 1;
    assert Before(top, 4, 0) == 0 && Before(top, 4, 1) == 1;
    OffsetOfTop(WithBool(), 4);
    OffsetOfTop(WithPort(), 4);
    assert [1][1..] == [] && [2][1..] == [];
  }
}
