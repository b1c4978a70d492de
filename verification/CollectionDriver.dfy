/**
 The drivers of the marker: a stopped mark phase, which may be abandoned; the incremental
 collector, which lets the client run between small steps; and full collections.
 */
module CollectionDriver {
  import opened ObjectGraph
  import opened MarkPhase

  /** Answers that the drivers get from clocks, heuristics and client settings. */
  datatype Advice = Advice(dontGc: bool, shouldCollect: bool, needFullGc: bool, timeLimited: bool, timeout: StopFunc)

  const GC_RATE: nat := 10
  const MAX_PRIOR_ATTEMPTS: nat := 1

  /** The loop of `GC_stopped_mark`; with the world stopped every step makes progress. */
  method MarkUntilDone(gc: Collector, stop: StopFunc, ghost s: set<Obj>) returns (ok: bool, steps: nat)
    requires gc.Marking() && gc.markState != MarkState.None
    modifies gc`marked, gc`stack, gc`markState, gc`stackTooSmall, gc`objectsAreMarked, gc`scanPtr, gc`stackSize,
             gc`aborted, gc`calls
    ensures gc.Marking()
    ensures ok <==> gc.markState == MarkState.None
    ensures !ok ==> stop.After? && steps == stop.after
    // It asks after every step.
    ensures gc.calls == old(gc.calls) + steps && (stop.After? ==> steps <= stop.after)
    ensures old(gc.marked) <= gc.marked
    ensures old(Justified(gc.fields, gc.segs, gc.marked, gc.stack, s)) && gc.RootTargets() <= s ==>
              Justified(gc.fields, gc.segs, gc.marked, gc.stack, s)
  {
    hide Justified, BadObjs, BadSegs, Touched, Unmarked;
    hide BlocksOk, PointersOk, gc.StackRootsMarked, gc.RootTargets, gc.MarkInv;
    steps, ok := 0, false;
    while !ok && !stop.Says(steps)
      invariant gc.Marking()
      invariant ok <==> gc.markState == MarkState.None
      invariant gc.calls == old(gc.calls) + steps && (stop.After? ==> steps <= stop.after)
      invariant old(gc.marked) <= gc.marked
      invariant old(Justified(gc.fields, gc.segs, gc.marked, gc.stack, s)) && gc.RootTargets() <= s ==>
                  Justified(gc.fields, gc.segs, gc.marked, gc.stack, s)
      decreases Unmarked(gc.fields, gc.marked), gc.Phase(), gc.ScanLeft(), gc.Excesses(), |gc.stack|
    {
      var memory: bool := *;
      ok := gc.MarkSome(memory, s);
      steps := steps + 1;
    }
  }

  /** The world is stopped, and marking starts or starts again. */
  method StopAndMark(gc: Collector, stop: StopFunc, ghost s: set<Obj>) returns (ok: bool, steps: nat)
    requires gc.BlockShape() && gc.Shape() && gc.FewSegs() && !gc.aborted && gc.MarkInv() && !gc.worldStopped
    requires gc.markState == Invalid || (gc.incremental && gc.markState == MarkState.None)
    requires !gc.incremental ==> gc.dirty == {} && gc.dirtySegs == {}
    modifies gc`dirty, gc`dirtySegs, gc`grungy, gc`grungySegs, gc`marked, gc`stack, gc`markState, gc`stackTooSmall,
             gc`objectsAreMarked, gc`scanPtr, gc`stackSize, gc`aborted, gc`calls, gc`worldStopped
    ensures gc.Marking() && gc.worldStopped && (ok <==> gc.markState == MarkState.None)
    ensures !ok ==> stop.After? && steps == stop.after
    // It asks after every step.
    ensures gc.calls == old(gc.calls) + steps && (stop.After? ==> steps <= stop.after)
    ensures old(gc.marked) <= gc.marked
    ensures old(Justified(gc.fields, gc.segs, gc.marked, gc.stack, s)) && gc.RootTargets() <= s ==>
              Justified(gc.fields, gc.segs, gc.marked, gc.stack, s)
  {
    hide Justified, BadObjs, BadSegs, Touched, Unmarked, StateInv, BlocksOk, PointersOk, Reaches;
    hide gc.BlockShape, gc.Shape, gc.StackRootsMarked, gc.RootTargets, gc.MarkInv, gc.FewSegs;
    gc.worldStopped := true;
    gc.InitiateGc();
    ok, steps := MarkUntilDone(gc, stop, s);
  }

  /** `GC_stopped_mark`: marks with the world stopped until done, or told to stop. */
  method StoppedMark(gc: Collector, stop: StopFunc, ghost s: set<Obj>) returns (ok: bool)
    requires gc.BlockShape() && gc.Shape() && gc.FewSegs() && gc.Recorded() && !gc.aborted && gc.MarkInv() && !gc.worldStopped
    requires gc.markState == Invalid || (gc.incremental && gc.markState == MarkState.None)
    requires !gc.incremental ==> gc.dirty == {} && gc.dirtySegs == {}
    modifies gc`dirty, gc`dirtySegs, gc`grungy, gc`grungySegs, gc`marked, gc`stack, gc`markState, gc`stackTooSmall,
             gc`objectsAreMarked, gc`scanPtr, gc`stackSize, gc`aborted, gc`calls, gc`worldStopped, gc`deficit, gc`gcNo, gc`snapshots
    ensures gc.Valid() && !gc.worldStopped
    ensures stop.Never? ==> ok
    ensures stop.After? ==> gc.calls <= old(gc.calls) + stop.after
    ensures ok ==> gc.markState == MarkState.None && gc.Complete()
    ensures ok ==> gc.gcNo == old(gc.gcNo) + 1 && gc.deficit == old(gc.deficit)
    ensures ok ==> gc.snapshots == old(gc.snapshots) + [Snapshot.Snapshot(gc.fields, gc.RootTargets(), gc.marked)]
    ensures !ok ==> stop.After? && gc.deficit == stop.after && gc.gcNo == old(gc.gcNo) && gc.snapshots == old(gc.snapshots)
    ensures !ok ==> gc.markState != MarkState.None
    ensures old(gc.marked) <= gc.marked
    ensures old(Justified(gc.fields, gc.segs, gc.marked, gc.stack, s)) && gc.RootTargets() <= s ==>
              Justified(gc.fields, gc.segs, gc.marked, gc.stack, s)
  {
    hide Justified, BadObjs, BadSegs, Touched, Unmarked;
    hide BlocksOk, PointersOk, gc.BlockShape, gc.Shape;
    hide gc.StackRootsMarked, gc.RootTargets, gc.MarkInv, gc.Complete, gc.Recorded, gc.ReachableIsMarked, gc.FewSegs;
    hide Reaches, StateInv, Safe;
    var steps;
    ok, steps := StopAndMark(gc, stop, s);
    if !ok {
      gc.deficit := steps;
    } else {
      gc.MarkInvAtEnd();
      RecordPhase(gc);
    }
    gc.worldStopped := false;
  }

  /** A completed mark phase is counted. */
  method RecordPhase(gc: Collector)
    requires gc.Recorded() && gc.Complete()
    modifies gc`gcNo, gc`snapshots
    ensures gc.Recorded() && gc.gcNo == old(gc.gcNo) + 1
    ensures gc.snapshots == old(gc.snapshots) + [Snapshot.Snapshot(gc.fields, gc.RootTargets(), gc.marked)]
  {
    gc.CompleteMeansReachableIsMarked();
    gc.gcNo := gc.gcNo + 1;
    gc.snapshots := gc.snapshots + [Snapshot.Snapshot(gc.fields, gc.RootTargets(), gc.marked)];
  }

  // -----------------------------------------------------------------------------------
  // The client, while the world runs
  // -----------------------------------------------------------------------------------

  lemma WriteAddsOneBad(g: Graph, marked: set<Obj>, stack: seq<Entry>, o: Obj, content: seq<Obj>)
    ensures BadObjs(g[o := content], marked, stack) <= BadObjs(g, marked, stack) + {o}
  {
  }

  lemma MoreDirtExcusesMore(state: MarkState, scanPtr: nat, hdrs: map<nat, Hdr>, dirty: set<nat>, more: set<nat>,
                            grungy: set<nat>, hdrs': map<nat, Hdr>)
    requires dirty <= more && forall c :: c in hdrs ==> c in hdrs' && hdrs'[c] == hdrs[c]
    ensures forall b :: Excused(state, scanPtr, hdrs, dirty, grungy, b) ==>
              Excused(state, scanPtr, hdrs', more, grungy, b)
  {
  }

  lemma WriteKeepsShape(hdrs: map<nat, Hdr>, heapTop: nat, g: Graph, segs: seq<seq<Obj>>, stackRoots: seq<Obj>,
                        o: Obj, content: seq<Obj>)
    requires BlocksOk(hdrs, heapTop, g) && PointersOk(hdrs, g, segs, stackRoots)
    requires o in g && hdrs[o.blk].HasDescr() && forall q :: q in content ==> q in g
    ensures o.blk in hdrs
    ensures BlocksOk(hdrs, heapTop, g[o := content]) && PointersOk(hdrs, g[o := content], segs, stackRoots)
  {
  }

  /** The client overwrites object `o`; the page it writes to becomes dirty. */
  method WriteObject(gc: Collector, o: Obj, content: seq<Obj>, page: nat)
    requires gc.Valid() && !gc.worldStopped && o in gc.fields
    requires gc.hdrs[o.blk].HasDescr() && forall q :: q in content ==> q in gc.fields
    requires o.blk <= page < o.blk + gc.hdrs[o.blk].nblks
    modifies gc`fields, gc`dirty
    ensures gc.Valid() && gc.fields == old(gc.fields)[o := content]
  {
    hide BadObjs, Excused, BadSegs, BlocksOk, PointersOk;
    WriteAddsOneBad(gc.fields, gc.marked, gc.stack, o, content);
    WriteKeepsShape(gc.hdrs, gc.heapTop, gc.fields, gc.segs, gc.stackRoots, o, content);
    gc.fields := gc.fields[o := content];
    if gc.incremental {
      gc.dirty := gc.dirty + {page};
      assert Excused(gc.markState, gc.scanPtr, gc.hdrs, gc.dirty, gc.grungy, o.blk) by {
        ExcusedIfTouched(gc.markState, gc.scanPtr, gc.hdrs, gc.dirty, gc.grungy, o.blk, page);
      }
      MoreDirtExcusesMore(gc.markState, gc.scanPtr, gc.hdrs, old(gc.dirty), gc.dirty, gc.grungy, gc.hdrs);
    }
  }

  lemma ExcusedIfTouched(state: MarkState, scanPtr: nat, hdrs: map<nat, Hdr>, dirty: set<nat>, grungy: set<nat>,
                         b: nat, page: nat)
    requires b in hdrs && b <= page < b + hdrs[b].nblks && page in dirty
    ensures Excused(state, scanPtr, hdrs, dirty, grungy, b)
  {
  }

  /** The client overwrites a static root segment. */
  method WriteSegment(gc: Collector, g: nat, content: seq<Obj>)
    requires gc.Valid() && !gc.worldStopped && g < |gc.segs| && forall q :: q in content ==> q in gc.fields
    modifies gc`segs, gc`dirtySegs
    ensures gc.Valid() && gc.segs == old(gc.segs)[g := content]
  {
    hide BadObjs, Excused, BlocksOk;
    gc.segs := gc.segs[g := content];
    if gc.incremental {
      gc.dirtySegs := gc.dirtySegs + {g};
    }
    assert forall x :: x in BadSegs(gc.segs, gc.marked, gc.stack) && x != g ==>
             x in old(BadSegs(gc.segs, gc.marked, gc.stack));
  }

  /** Stacks and registers change freely: they are scanned again at every stop. */
  method WriteStack(gc: Collector, content: seq<Obj>)
    requires gc.Valid() && !gc.worldStopped && forall q :: q in content ==> q in gc.fields
    modifies gc`stackRoots
    ensures gc.Valid() && gc.stackRoots == content
  {
    gc.stackRoots := content;
  }

  function Slots(b: nat, n: nat): set<Obj> {
    set i | 0 <= i < n :: Obj(b, i)
  }

  /** The heap with the cleared objects of a new block. */
  function WithBlock(g: Graph, b: nat, n: nat): Graph
    requires forall o :: o in g ==> o.blk != b
  {
    map o | o in g.Keys + Slots(b, n) :: if o in g then g[o] else []
  }

  function Pages(b: nat, n: nat): (s: set<nat>)
    ensures forall p: nat :: p in s <==> b <= p < b + n
  {
    if n == 0 then {} else Pages(b, n - 1) + {b + n - 1}
  }

  lemma NewBlockIsNotBad(g: Graph, segs: seq<seq<Obj>>, marked: set<Obj>, stack: seq<Entry>, b: nat, n: nat,
                         newMarks: set<Obj>)
    requires forall o :: o in g ==> o.blk != b
    requires newMarks <= Slots(b, n)
    ensures BadObjs(WithBlock(g, b, n), marked + newMarks, stack) <= BadObjs(g, marked, stack)
    ensures BadSegs(segs, marked + newMarks, stack) <= BadSegs(segs, marked, stack)
  {
  }

  lemma NewBlockKeepsShape(hdrs: map<nat, Hdr>, heapTop: nat, g: Graph, segs: seq<seq<Obj>>, stackRoots: seq<Obj>,
                           b: nat, h: Hdr, top: nat)
    requires BlocksOk(hdrs, heapTop, g) && PointersOk(hdrs, g, segs, stackRoots)
    requires 1 <= b && 1 <= h.nblks && 1 <= h.nobjs <= MAX_OBJS_PER_BLOCK
    requires forall c :: c in hdrs ==> c + hdrs[c].nblks <= b || b + h.nblks <= c
    requires heapTop <= top && b + h.nblks <= top
    ensures b !in hdrs && forall o :: o in g ==> o.blk != b
    ensures BlocksOk(hdrs[b := h], top, WithBlock(g, b, h.nobjs))
    ensures PointersOk(hdrs[b := h], WithBlock(g, b, h.nobjs), segs, stackRoots)
  {
    assert b !in hdrs;
    var g' := WithBlock(g, b, h.nobjs);
    assert BlocksOk(hdrs[b := h], top, g');
    assert PointersOk(hdrs[b := h], g', segs, stackRoots) by {
      hide BlocksOk;
      forall p, q | p in g' && q in g'[p]
        ensures q in g'
      {
        assert p in g;
      }
    }
  }

  lemma EntriesSurvive(g: Graph, segs: seq<seq<Obj>>, stack: seq<Entry>, b: nat, n: nat)
    requires forall o :: o in g ==> o.blk != b
    requires forall i :: 0 <= i < |stack| ==> EntryOk(g, segs, stack[i])
    ensures forall i :: 0 <= i < |stack| ==> EntryOk(WithBlock(g, b, n), segs, stack[i])
  {
  }

  lemma NewMarksAreUncollectable(hdrs: map<nat, Hdr>, g: Graph, marked: set<Obj>, b: nat, h: Hdr, newMarks: set<Obj>)
    requires forall o :: o in g ==> o.blk != b
    requires marked <= g.Keys && newMarks == if h.IsUncollectable() then Slots(b, h.nobjs) else {}
    ensures marked + newMarks <= WithBlock(g, b, h.nobjs).Keys
    ensures OnlyUncollectableMarked(hdrs, marked) ==> OnlyUncollectableMarked(hdrs[b := h], marked + newMarks)
  {
  }

  lemma NewBlockKeepsStateInv(state: MarkState, scanPtr: nat, objectsAreMarked: bool, stack: seq<Entry>, marked: set<Obj>,
                              hdrs: map<nat, Hdr>, g: Graph, segs: seq<seq<Obj>>,
                              dirty: set<nat>, dirtySegs: set<nat>, grungy: set<nat>, grungySegs: set<nat>,
                              b: nat, h: Hdr, newMarks: set<Obj>, more: set<nat>)
    requires StateInv(state, scanPtr, objectsAreMarked, stack, marked, hdrs, g, segs, dirty, dirtySegs, grungy, grungySegs)
    requires marked <= g.Keys && dirty <= more
    requires b !in hdrs && forall o :: o in g ==> o.blk != b
    requires newMarks == if h.IsUncollectable() then Slots(b, h.nobjs) else {}
    ensures StateInv(state, scanPtr, objectsAreMarked, stack, marked + newMarks, hdrs[b := h],
                     WithBlock(g, b, h.nobjs), segs, more, dirtySegs, grungy, grungySegs)
  {
    hide BadObjs, Excused, BadSegs, WithBlock;
    NewBlockIsNotBad(g, segs, marked, stack, b, h.nobjs, newMarks);
    MoreDirtExcusesMore(state, scanPtr, hdrs, dirty, more, grungy, hdrs[b := h]);
    NewMarksAreUncollectable(hdrs, g, marked, b, h, newMarks);
  }

  /** A new block: cleared objects, marked at once if they are uncollectable, on dirty pages. */
  method AllocBlock(gc: Collector, b: nat, h: Hdr)
    requires gc.Valid() && !gc.worldStopped && 1 <= b && 1 <= h.nblks && 1 <= h.nobjs <= MAX_OBJS_PER_BLOCK
    requires forall c :: c in gc.hdrs ==> c + gc.hdrs[c].nblks <= b || b + h.nblks <= c
    modifies gc`hdrs, gc`heapTop, gc`fields, gc`marked, gc`dirty
    ensures gc.Valid() && gc.hdrs == old(gc.hdrs)[b := h]
    ensures forall o :: o in old(gc.fields) ==> o.blk != b
    ensures b !in old(gc.hdrs) && gc.fields == WithBlock(old(gc.fields), b, h.nobjs)
  {
    hide StateInv, BlocksOk, PointersOk, EntryOk, WithBlock, Slots, Pages, OnlyUncollectableMarked, gc.StackRootsMarked;
    ghost var top := if gc.heapTop < b + h.nblks then b + h.nblks else gc.heapTop;
    ghost var newMarks := if h.IsUncollectable() then Slots(b, h.nobjs) else {};
    NewBlockKeepsShape(gc.hdrs, gc.heapTop, gc.fields, gc.segs, gc.stackRoots, b, h, top);
    if gc.incremental {
      NewBlockKeepsStateInv(gc.markState, gc.scanPtr, gc.objectsAreMarked, gc.stack, gc.marked, gc.hdrs, gc.fields,
                            gc.segs, gc.dirty, gc.dirtySegs, gc.grungy, gc.grungySegs,
                            b, h, newMarks, gc.dirty + Pages(b, h.nblks));
    }
    NewMarksAreUncollectable(gc.hdrs, gc.fields, gc.marked, b, h, newMarks);
    EntriesSurvive(gc.fields, gc.segs, gc.stack, b, h.nobjs);
    InstallBlock(gc, b, h);
  }

  method InstallBlock(gc: Collector, b: nat, h: Hdr)
    requires forall o :: o in gc.fields ==> o.blk != b
    modifies gc`hdrs, gc`heapTop, gc`fields, gc`marked, gc`dirty
    ensures gc.hdrs == old(gc.hdrs)[b := h] && gc.fields == WithBlock(old(gc.fields), b, h.nobjs)
    ensures gc.heapTop == if old(gc.heapTop) < b + h.nblks then b + h.nblks else old(gc.heapTop)
    ensures gc.marked == old(gc.marked) + if h.IsUncollectable() then Slots(b, h.nobjs) else {}
    ensures gc.dirty == if gc.incremental then old(gc.dirty) + Pages(b, h.nblks) else old(gc.dirty)
  {
    gc.fields := WithBlock(gc.fields, b, h.nobjs);
    gc.hdrs := gc.hdrs[b := h];
    if gc.heapTop < b + h.nblks {
      gc.heapTop := b + h.nblks;
    }
    if h.IsUncollectable() {
      gc.marked := gc.marked + Slots(b, h.nobjs);
    }
    if gc.incremental {
      gc.dirty := gc.dirty + Pages(b, h.nblks);
    }
  }

  // -----------------------------------------------------------------------------------
  // Collections
  // -----------------------------------------------------------------------------------

  /** The heap without the blocks in `dead`, and with what is unmarked elsewhere cleared. */
  function Swept(g: Graph, marked: set<Obj>, dead: set<nat>): Graph {
    map o | o in g && o.blk !in dead :: if o in marked then g[o] else []
  }

  /** Nothing has happened to the objects that could be reached. */
  ghost predicate Keeps(g: Graph, after: Graph, roots: set<Obj>) {
    forall o :: o in g && Reaches(g, roots, o) ==> o in after && after[o] == g[o]
  }

  lemma {:induction false} StillReached(g: Graph, after: Graph, roots: set<Obj>, o: Obj, n: nat)
    requires Keeps(g, after, roots) && ReachesIn(g, roots, o, n)
    ensures ReachesIn(after, roots, o, n)
    decreases n
  {
    if n > 0 {
      var p :| p in g && o in g[p] && ReachesIn(g, roots, p, n - 1);
      StillReached(g, after, roots, p, n - 1);
      assert Reaches(g, roots, p);
    }
  }

  lemma KeepsAll(g: Graph, roots: set<Obj>)
    ensures Keeps(g, g, roots)
  {
  }

  lemma KeepsTwice(g: Graph, mid: Graph, after: Graph, roots: set<Obj>)
    requires Keeps(g, mid, roots) && Keeps(mid, after, roots)
    ensures Keeps(g, after, roots)
  {
    forall o | o in g && Reaches(g, roots, o) ensures o in after && after[o] == g[o] {
      var n: nat :| ReachesIn(g, roots, o, n);
      StillReached(g, mid, roots, o, n);
      assert Reaches(mid, roots, o);
    }
  }

  lemma SweptKeeps(g: Graph, marked: set<Obj>, dead: set<nat>, roots: set<Obj>)
    requires roots <= marked && Closed(g, marked) && forall o :: o in marked ==> o.blk !in dead
    ensures Keeps(g, Swept(g, marked, dead), roots) && Closed(Swept(g, marked, dead), marked)
  {
    ClosedContainsReachable(g, roots, marked);
  }

  lemma SweptShape(hdrs: map<nat, Hdr>, heapTop: nat, g: Graph, segs: seq<seq<Obj>>, stackRoots: seq<Obj>,
                   marked: set<Obj>, dead: set<nat>)
    requires BlocksOk(hdrs, heapTop, g) && PointersOk(hdrs, g, segs, stackRoots) && marked <= g.Keys
    requires Closed(g, marked) && forall o :: o in marked ==> o.blk !in dead
    requires (forall q :: q in stackRoots ==> q in marked) && forall s, q :: 0 <= s < |segs| && q in segs[s] ==> q in marked
    ensures BlocksOk(hdrs - dead, heapTop, Swept(g, marked, dead))
    ensures PointersOk(hdrs - dead, Swept(g, marked, dead), segs, stackRoots)
    ensures marked <= Swept(g, marked, dead).Keys
  {
    assert forall o :: o in marked ==> o in Swept(g, marked, dead);
  }

  lemma CompleteLeavesNoneBad(g: Graph, segs: seq<seq<Obj>>, marked: set<Obj>)
    requires Closed(g, marked) && forall s, q :: 0 <= s < |segs| && q in segs[s] ==> q in marked
    ensures BadObjs(g, marked, []) == {} && BadSegs(segs, marked, []) == {}
  {
  }

  /** Blocks without a marked object. */
  function EmptyBlocks(hdrs: map<nat, Hdr>, marked: set<Obj>): set<nat> {
    set b | b in hdrs && forall o :: o in marked ==> o.blk != b
  }

  /** Garbage is gone: blocks without marks are given back, and unmarked objects of other blocks are empty slots. */
  ghost predicate Reclaimed(hdrs: map<nat, Hdr>, g: Graph, after: map<nat, Hdr>, g': Graph, marked: set<Obj>) {
    after == hdrs - EmptyBlocks(hdrs, marked) && g' == Swept(g, marked, EmptyBlocks(hdrs, marked))
  }

  /** What `GC_finish_collection` has done to garbage. */
  method Reclaim(gc: Collector)
    requires gc.Valid() && !gc.worldStopped && gc.Complete()
    modifies gc`hdrs, gc`fields
    ensures gc.Valid() && gc.Complete()
    ensures Reclaimed(old(gc.hdrs), old(gc.fields), gc.hdrs, gc.fields, gc.marked)
    ensures Keeps(old(gc.fields), gc.fields, gc.RootTargets())
  {
    hide BlocksOk, PointersOk, Swept, EmptyBlocks, BadObjs, BadSegs, Keeps, Reaches, Closed;
    var dead := EmptyBlocks(gc.hdrs, gc.marked);
    MarkedBlocksStay(gc.hdrs, gc.marked);
    forall s, q | 0 <= s < |gc.segs| && q in gc.segs[s] ensures q in gc.marked {
      assert q in gc.RootTargets();
    }
    SweptKeeps(gc.fields, gc.marked, dead, gc.RootTargets());
    SweptShape(gc.hdrs, gc.heapTop, gc.fields, gc.segs, gc.stackRoots, gc.marked, dead);
    gc.fields := Swept(gc.fields, gc.marked, dead);
    gc.hdrs := gc.hdrs - dead;
    CompleteLeavesNoneBad(gc.fields, gc.segs, gc.marked);
  }

  lemma MarkedBlocksStay(hdrs: map<nat, Hdr>, marked: set<Obj>)
    ensures forall o :: o in marked ==> o.blk !in EmptyBlocks(hdrs, marked)
  {
  }

  /** `GC_finish_collection`. */
  method FinishCollection(gc: Collector)
    requires gc.Valid() && !gc.worldStopped && gc.Complete()
    modifies gc`nAttempts, gc`isFullGc, gc`hdrs, gc`fields
    ensures gc.Valid() && gc.Complete() && gc.nAttempts == 0 && !gc.isFullGc
    ensures Keeps(old(gc.fields), gc.fields, gc.RootTargets())
    ensures Reclaimed(old(gc.hdrs), old(gc.fields), gc.hdrs, gc.fields, gc.marked)
  {
    hide Reclaimed, Keeps, BlocksOk, PointersOk, StateInv, gc.StackShape, gc.Complete, gc.Recorded, gc.StackRootsMarked;
    Reclaim(gc);
    gc.nAttempts := 0;
    gc.isFullGc := false;
  }

  ghost function AttemptsLeft(gc: Collector): nat
    reads gc`nAttempts
  {
    if gc.nAttempts < MAX_PRIOR_ATTEMPTS then MAX_PRIOR_ATTEMPTS - gc.nAttempts else 0
  }

  /** The marking loop of `GC_collect_a_little_inner`: up to `max` steps, less the deficit. */
  method MarkALittle(gc: Collector, max: nat) returns (done: bool)
    requires gc.Marking() && gc.markState != MarkState.None
    modifies gc`marked, gc`stack, gc`markState, gc`stackTooSmall, gc`objectsAreMarked, gc`scanPtr, gc`stackSize,
             gc`aborted, gc`calls
    ensures gc.Marking()
    ensures done <==> gc.markState == MarkState.None
    ensures if done then gc.calls <= old(gc.calls) + Less(max, gc.deficit) else gc.calls == old(gc.calls) + Less(max, gc.deficit)
    ensures gc.MadeProgress() ||
            (max <= gc.deficit && gc.marked == old(gc.marked) && gc.markState == old(gc.markState) &&
             gc.scanPtr == old(gc.scanPtr) && gc.stack == old(gc.stack) &&
             gc.objectsAreMarked == old(gc.objectsAreMarked))
  {
    hide Justified, Unmarked, BlocksOk, PointersOk, StateInv, gc.StackRootsMarked;
    done := false;
    var i := gc.deficit;
    while i < max && !done
      invariant gc.Marking()
      invariant done <==> gc.markState == MarkState.None
      invariant i <= max || i == gc.deficit
      invariant gc.calls == old(gc.calls) + i - gc.deficit + if done then 1 else 0
      invariant done ==> i < max
      invariant gc.MadeProgress() ||
                (i == gc.deficit && gc.marked == old(gc.marked) && gc.markState == old(gc.markState) &&
                 gc.scanPtr == old(gc.scanPtr) && gc.stack == old(gc.stack) &&
                 gc.objectsAreMarked == old(gc.objectsAreMarked))
      decreases max - i, !done
    {
      var memory: bool := *;
      done := gc.MarkSome(memory, {});
      if !done {
        i := i + 1;
      }
    }
  }

  /** A collection has been finished and counted, and garbage is gone. */
  twostate predicate Finished(gc: Collector)
    reads gc
  {
    && gc.gcNo == old(gc.gcNo) + 1 && gc.nAttempts == 0 && !gc.isFullGc
    && Reclaimed(old(gc.hdrs), old(gc.fields), gc.hdrs, gc.fields, gc.marked)
  }

  /** A stopped mark phase was abandoned because the time limit was reached. */
  twostate predicate TimedOut(gc: Collector, advice: Advice)
    reads gc
  {
    && advice.timeLimited && advice.timeout.After? && gc.deficit == advice.timeout.after
    && gc.markState != MarkState.None
    && gc.gcNo == old(gc.gcNo) && gc.snapshots == old(gc.snapshots)
    && gc.hdrs == old(gc.hdrs) && gc.fields == old(gc.fields)
  }

  /** Exactly what can be reached from the roots and from the objects in `from` is marked. */
  ghost predicate MarksExactly(g: Graph, marked: set<Obj>, from: set<Obj>, roots: set<Obj>) {
    forall o :: o in marked <==> Reaches(g, from + roots, o)
  }

  /**
   What `GC_maybe_gc` does: nothing unless a collection is due. A partial collection takes the
   old marks for granted, any other only those of uncollectable objects. An attempt at a
   partial collection that takes too long is counted.
   */
  twostate predicate MaybeCollected(gc: Collector, advice: Advice, finished: bool)
    reads gc
  {
    if !advice.shouldCollect then
      !finished && unchanged(gc)
    else if finished then
      && Finished(gc)
      && (gc.incremental && advice.timeLimited && advice.timeout.After? ==> gc.calls <= old(gc.calls) + advice.timeout.after)
      && MarksExactly(old(gc.fields), gc.marked,
                      if gc.incremental && !advice.needFullGc then old(gc.marked) else old(gc.UncollectableMarks()),
                      gc.RootTargets())
    else
      && gc.incremental && TimedOut(gc, advice)
      && gc.isFullGc == (old(gc.isFullGc) || advice.needFullGc)
      && gc.nAttempts == old(gc.nAttempts) + if gc.isFullGc then 0 else 1
  }

  /** What one call does to a collection in progress, which has `quota` marking steps to do. */
  twostate predicate Advanced(gc: Collector, quota: nat, advice: Advice, finished: bool)
    reads gc
  {
    && (gc.markState == MarkState.None && !advice.dontGc ==> finished)
    && if finished then
         !advice.dontGc && Finished(gc) && gc.markState == MarkState.None && gc.deficit == Less(old(gc.deficit), quota)
       else
         && gc.gcNo == old(gc.gcNo) && gc.snapshots == old(gc.snapshots)
         && gc.hdrs == old(gc.hdrs) && gc.fields == old(gc.fields) && gc.isFullGc == old(gc.isFullGc)
         && if gc.nAttempts == old(gc.nAttempts) then
              gc.deficit == Less(old(gc.deficit), quota)
            else
              && gc.nAttempts == old(gc.nAttempts) + 1 <= MAX_PRIOR_ATTEMPTS && !advice.dontGc
              && advice.timeLimited && advice.timeout.After? && gc.deficit == Less(advice.timeout.after, quota)
  }

  function Less(a: nat, b: nat): nat {
    if a < b then 0 else a - b
  }

  /** The marker has run dry: one more phase with the world stopped, within the time limit at first. */
  method FinishIncrementally(gc: Collector, advice: Advice) returns (finished: bool)
    requires gc.Valid() && !gc.worldStopped && gc.incremental && gc.markState == MarkState.None
    modifies gc`dirty, gc`dirtySegs, gc`grungy, gc`grungySegs, gc`marked, gc`stack, gc`markState, gc`stackTooSmall,
             gc`objectsAreMarked, gc`scanPtr, gc`stackSize, gc`aborted, gc`calls, gc`worldStopped, gc`deficit, gc`gcNo, gc`snapshots,
             gc`nAttempts, gc`isFullGc, gc`hdrs, gc`fields
    ensures gc.Valid() && !gc.worldStopped && Keeps(old(gc.fields), gc.fields, gc.RootTargets())
    ensures old(gc.snapshots) <= gc.snapshots
    ensures old(gc.nAttempts) >= MAX_PRIOR_ATTEMPTS || !advice.timeLimited || advice.timeout.Never? ==> finished
    ensures old(gc.nAttempts) < MAX_PRIOR_ATTEMPTS && advice.timeLimited && advice.timeout.After? ==>
              gc.calls <= old(gc.calls) + advice.timeout.after
    ensures finished ==> gc.markState == MarkState.None && gc.Complete() && Finished(gc) && gc.deficit == old(gc.deficit)
    ensures !finished ==> TimedOut(gc, advice) && gc.isFullGc == old(gc.isFullGc) && gc.nAttempts == old(gc.nAttempts) + 1
  {
    hide gc.BlockShape, gc.FewSegs, gc.MarkInv, gc.RootTargets, gc.Shape, Safe;
    hide Reclaimed, Justified, Unmarked, BlocksOk, PointersOk, StateInv, Keeps, gc.StackRootsMarked, gc.Complete, gc.Recorded;
    KeepsAll(gc.fields, gc.RootTargets());
    if gc.nAttempts < MAX_PRIOR_ATTEMPTS && advice.timeLimited {
      finished := StoppedMark(gc, advice.timeout, {});
      if finished {
        FinishCollection(gc);
      } else {
        gc.nAttempts := gc.nAttempts + 1;
      }
    } else {
      var _ := StoppedMark(gc, Never, {});
      FinishCollection(gc);
      finished := true;
    }
  }

  /** `GC_collect_a_little_inner` for a collection in progress. */
  method AdvanceCollection(gc: Collector, quota: nat, advice: Advice) returns (finished: bool)
    requires gc.Valid() && !gc.worldStopped && 1 <= quota && gc.incremental && gc.markState != MarkState.None
    modifies gc`dirty, gc`dirtySegs, gc`grungy, gc`grungySegs, gc`marked, gc`stack, gc`markState, gc`stackTooSmall,
             gc`objectsAreMarked, gc`scanPtr, gc`stackSize, gc`aborted, gc`calls, gc`worldStopped, gc`deficit, gc`gcNo, gc`snapshots,
             gc`nAttempts, gc`isFullGc, gc`hdrs, gc`fields
    ensures gc.Valid() && !gc.worldStopped && Keeps(old(gc.fields), gc.fields, gc.RootTargets())
    ensures old(gc.snapshots) <= gc.snapshots
    ensures finished ==> gc.Complete()
    ensures Advanced(gc, quota, advice, finished)
    ensures gc.markState != MarkState.None ==>
              AttemptsLeft(gc) < old(AttemptsLeft(gc)) ||
              (AttemptsLeft(gc) == old(AttemptsLeft(gc)) &&
               (gc.MadeProgress() ||
                (gc.marked == old(gc.marked) && gc.markState == old(gc.markState) && gc.scanPtr == old(gc.scanPtr) &&
                 gc.stack == old(gc.stack) && gc.objectsAreMarked == old(gc.objectsAreMarked) &&
                 gc.fields == old(gc.fields) && gc.hdrs == old(gc.hdrs) && gc.deficit < old(gc.deficit))))
  {
    hide Justified, Unmarked, BlocksOk, PointersOk, StateInv, Keeps, gc.StackRootsMarked, gc.Complete, gc.Recorded;
    hide gc.BlockShape, gc.MarkInv, gc.GraphShape, Reaches, Reclaimed, gc.RootTargets, gc.FewSegs, gc.LessOnStack, Safe, gc.Shape;
    finished := false;
    KeepsAll(gc.fields, gc.RootTargets());
    var done := MarkALittle(gc, quota);
    if done && !advice.dontGc {
      finished := FinishIncrementally(gc, advice);
    }
    if gc.deficit > 0 {
      gc.deficit := if gc.deficit < quota then 0 else gc.deficit - quota;
    }
  }

  /**
   `GC_collect_a_little_inner`: does a bounded share of the marking, and finishes the
   collection with a stopped mark phase once the marker has nothing left to do.
   */
  method CollectALittle(gc: Collector, n: nat, advice: Advice) returns (finished: bool)
    requires gc.Valid() && !gc.worldStopped && 1 <= n
    modifies gc`dirty, gc`dirtySegs, gc`grungy, gc`grungySegs, gc`marked, gc`stack, gc`markState, gc`stackTooSmall,
             gc`objectsAreMarked, gc`scanPtr, gc`stackSize, gc`aborted, gc`calls, gc`worldStopped, gc`deficit, gc`gcNo, gc`snapshots,
             gc`nAttempts, gc`isFullGc, gc`hdrs, gc`fields
    ensures gc.Valid() && !gc.worldStopped && Keeps(old(gc.fields), gc.fields, gc.RootTargets())
    ensures old(gc.snapshots) <= gc.snapshots
    ensures finished ==> gc.Complete() && gc.gcNo > old(gc.gcNo)
    ensures if old(gc.incremental && gc.markState != MarkState.None) then Advanced(gc, GC_RATE * n, advice, finished)
            else if advice.dontGc then !finished && unchanged(gc)
            else MaybeCollected(gc, advice, finished)
    ensures old(gc.incremental && gc.markState != MarkState.None) && gc.markState != MarkState.None ==>
              AttemptsLeft(gc) < old(AttemptsLeft(gc)) ||
              (AttemptsLeft(gc) == old(AttemptsLeft(gc)) &&
               (gc.MadeProgress() ||
                (gc.marked == old(gc.marked) && gc.markState == old(gc.markState) && gc.scanPtr == old(gc.scanPtr) &&
                 gc.stack == old(gc.stack) && gc.objectsAreMarked == old(gc.objectsAreMarked) &&
                 gc.fields == old(gc.fields) && gc.hdrs == old(gc.hdrs) && gc.deficit < old(gc.deficit))))
    decreases if gc.incremental then 2 else 3
  {
    hide Justified, Unmarked, BlocksOk, PointersOk, StateInv, Keeps, gc.StackRootsMarked, gc.Complete, gc.Recorded;
    hide gc.BlockShape, gc.MarkInv, gc.GraphShape, Reaches;
    finished := false;
    KeepsAll(gc.fields, gc.RootTargets());
    if gc.incremental && gc.markState != MarkState.None {
      finished := AdvanceCollection(gc, GC_RATE * n, advice);
    } else if !advice.dontGc {
      finished := MaybeGc(gc, advice);
    }
  }

  /** Before a full collection: all marks but those of uncollectable objects are cleared. */
  method StartFullGc(gc: Collector)
    requires gc.Valid() && !gc.worldStopped && gc.incremental && gc.markState == MarkState.None
    modifies gc`marked, gc`objectsAreMarked, gc`markState, gc`scanPtr, gc`isFullGc
    ensures gc.Valid() && gc.markState == Invalid && gc.isFullGc && gc.stack == []
    ensures gc.marked == old(gc.UncollectableMarks())
  {
    hide BadObjs, BadSegs, BlocksOk, PointersOk, gc.Recorded, gc.UncollectableMarks;
    gc.ClearMarks();
    gc.isFullGc := true;
  }

  /** `GC_maybe_gc`: starts a partial or a full mark phase, or a whole stop-the-world collection. */
  method MaybeGc(gc: Collector, advice: Advice) returns (finished: bool)
    requires gc.Valid() && !gc.worldStopped
    requires gc.incremental ==> gc.markState == MarkState.None
    modifies gc`dirty, gc`dirtySegs, gc`grungy, gc`grungySegs, gc`marked, gc`stack, gc`markState, gc`stackTooSmall,
             gc`objectsAreMarked, gc`scanPtr, gc`stackSize, gc`aborted, gc`calls, gc`worldStopped, gc`deficit, gc`gcNo, gc`snapshots,
             gc`nAttempts, gc`isFullGc, gc`hdrs, gc`fields
    ensures gc.Valid() && !gc.worldStopped && Keeps(old(gc.fields), gc.fields, gc.RootTargets())
    ensures old(gc.snapshots) <= gc.snapshots
    ensures finished ==> gc.Complete()
    ensures advice.shouldCollect && (!gc.incremental || !advice.timeLimited || advice.timeout.Never?) ==> finished
    ensures MaybeCollected(gc, advice, finished)
    decreases if gc.incremental then 1 else 2
  {
    hide Justified, BadObjs, BadSegs, Unmarked, BlocksOk, PointersOk, Keeps, Safe, gc.StackRootsMarked, gc.Complete;
    hide gc.Shape, gc.BlockShape, gc.MarkInv, gc.Recorded, Reclaimed, Reaches, gc.UncollectableMarks, gc.RootTargets;
    KeepsAll(gc.fields, gc.RootTargets());
    finished := false;
    if !advice.shouldCollect { return; }
    if !gc.incremental {
      finished := TryToCollect(gc, false, false);
      return;
    }
    if advice.needFullGc {
      StartFullGc(gc);
    }
    ghost var from := gc.marked;
    gc.NoneHasEmptyStack();
    JustifiedAtStart(gc.fields, gc.segs, from, from + gc.RootTargets());
    finished := StoppedMark(gc, if advice.timeLimited then advice.timeout else Never, from + gc.RootTargets());
    if finished {
      gc.CompleteMeansExact(from);
      FinishCollection(gc);
    } else if !gc.isFullGc {
      gc.nAttempts := gc.nAttempts + 1;
    }
  }

  /**
   `GC_try_to_collect_inner`: finishes a collection in progress, then clears all marks and
   marks from scratch with the world stopped.  It gives up only if the client may stop it.
   */
  method TryToCollect(gc: Collector, mayStop: bool, dontGc: bool) returns (ok: bool)
    requires gc.Valid() && !gc.worldStopped
    modifies gc`dirty, gc`dirtySegs, gc`grungy, gc`grungySegs, gc`marked, gc`stack, gc`markState, gc`stackTooSmall,
             gc`objectsAreMarked, gc`scanPtr, gc`stackSize, gc`aborted, gc`calls, gc`worldStopped, gc`deficit, gc`gcNo, gc`snapshots,
             gc`nAttempts, gc`isFullGc, gc`hdrs, gc`fields
    ensures gc.Valid() && !gc.worldStopped && Keeps(old(gc.fields), gc.fields, gc.RootTargets())
    ensures old(gc.snapshots) <= gc.snapshots
    ensures !mayStop && !dontGc ==> ok
    ensures dontGc ==> !ok && unchanged(gc)
    ensures ok ==> gc.Complete() && gc.gcNo > old(gc.gcNo)
    ensures ok ==> if gc.incremental && old(gc.markState) != MarkState.None then gc.gcNo == old(gc.gcNo) + 2 else Finished(gc)
    ensures ok && (!gc.incremental || old(gc.markState) == MarkState.None) ==>
              MarksExactly(old(gc.fields), gc.marked, old(gc.UncollectableMarks()), gc.RootTargets())
    decreases if gc.incremental then 3 else 1
  {
    hide Keeps, Reaches, Safe, BlocksOk, PointersOk, StateInv, gc.Complete, gc.UncollectableMarks, gc.StackRootsMarked;
    hide MarksExactly, Reclaimed;
    ok := false;
    KeepsAll(gc.fields, gc.RootTargets());
    var stopNow: bool := *;
    if dontGc || (mayStop && stopNow) { return; }
    if gc.incremental && gc.markState != MarkState.None {
      var stopped := FinishCollectionInProgress(gc, mayStop);
      if stopped { return; }
    }
    stopNow := *;
    if mayStop && stopNow { return; }  // GC_reclaim_all was stopped
    ghost var mid := gc.fields;
    ok := FullCollection(gc, mayStop);
    KeepsTwice(old(gc.fields), mid, gc.fields, gc.RootTargets());
  }

  /** The loop of `GC_try_to_collect_inner` that completes an incremental collection. */
  method FinishCollectionInProgress(gc: Collector, mayStop: bool) returns (stopped: bool)
    requires gc.Valid() && !gc.worldStopped && gc.incremental && gc.markState != MarkState.None
    modifies gc`dirty, gc`dirtySegs, gc`grungy, gc`grungySegs, gc`marked, gc`stack, gc`markState, gc`stackTooSmall,
             gc`objectsAreMarked, gc`scanPtr, gc`stackSize, gc`aborted, gc`calls, gc`worldStopped, gc`deficit, gc`gcNo, gc`snapshots,
             gc`nAttempts, gc`isFullGc, gc`hdrs, gc`fields
    ensures gc.Valid() && !gc.worldStopped && Keeps(old(gc.fields), gc.fields, gc.RootTargets())
    ensures old(gc.snapshots) <= gc.snapshots
    ensures !stopped ==> gc.markState == MarkState.None && gc.gcNo == old(gc.gcNo) + 1
    ensures stopped ==> mayStop
    decreases if gc.incremental then 3 else 1, 0
  {
    hide Justified, Unmarked, BlocksOk, PointersOk, StateInv, Keeps, gc.StackRootsMarked, gc.Complete, gc.Recorded;
    stopped := false;
    KeepsAll(gc.fields, gc.RootTargets());
    while gc.markState != MarkState.None
      invariant gc.Valid() && !gc.worldStopped && old(gc.snapshots) <= gc.snapshots
      invariant Keeps(old(gc.fields), gc.fields, gc.RootTargets())
      invariant gc.gcNo == old(gc.gcNo) + if gc.markState == MarkState.None then 1 else 0
      decreases gc.markState != MarkState.None, AttemptsLeft(gc),
                Unmarked(gc.fields, gc.marked), gc.Phase(), gc.ScanLeft(), gc.Excesses(), |gc.stack|, gc.deficit
    {
      var stopNow: bool := *;
      if mayStop && stopNow { return true; }
      var advice: Advice := *;
      ghost var mid := gc.fields;
      var _ := CollectALittle(gc, 1, advice.(dontGc := false));
      KeepsTwice(old(gc.fields), mid, gc.fields, gc.RootTargets());
    }
  }

  lemma JustifiedAtStart(g: Graph, segs: seq<seq<Obj>>, marked: set<Obj>, s: set<Obj>)
    requires marked <= s
    ensures Justified(g, segs, marked, [], s)
  {
    forall o | o in marked
      ensures Reaches(g, s, o)
    {
      ReachesSelf(g, s, o);
    }
  }

  /** Everything starts over: an empty mark stack and no marks but those of uncollectable objects. */
  method ClearForFullGc(gc: Collector)
    requires gc.Valid() && !gc.worldStopped
    modifies gc`stack, gc`markState, gc`marked, gc`objectsAreMarked, gc`scanPtr, gc`isFullGc
    ensures gc.Valid() && gc.MarkInv() && gc.markState == Invalid && gc.stack == []
    ensures gc.marked == old(gc.UncollectableMarks()) && gc.isFullGc
  {
    hide gc.Recorded, BadObjs, BadSegs, BlocksOk, PointersOk, StateInv, EntryOk, gc.UncollectableMarks, gc.StackShape;
    gc.InvalidateMarkState();
    gc.ClearMarks();
    gc.isFullGc := true;
  }

  /** A stopped mark phase that starts with no marks but those of uncollectable objects. */
  method MarkFromScratch(gc: Collector, mayStop: bool) returns (ok: bool)
    requires gc.Valid() && !gc.worldStopped
    modifies gc`dirty, gc`dirtySegs, gc`grungy, gc`grungySegs, gc`marked, gc`stack, gc`markState, gc`stackTooSmall,
             gc`objectsAreMarked, gc`scanPtr, gc`stackSize, gc`aborted, gc`calls, gc`worldStopped, gc`deficit, gc`gcNo, gc`snapshots,
             gc`isFullGc
    ensures gc.Valid() && !gc.worldStopped
    ensures old(gc.snapshots) <= gc.snapshots
    ensures !mayStop ==> ok
    ensures ok ==> gc.Complete() && gc.gcNo == old(gc.gcNo) + 1
    ensures ok ==> MarksExactly(gc.fields, gc.marked, old(gc.UncollectableMarks()), gc.RootTargets())
    ensures gc.isFullGc
  {
    hide BadObjs, BadSegs, Unmarked, BlocksOk, PointersOk, StateInv, Justified, EntryOk, Reaches;
    hide gc.Recorded, gc.StackRootsMarked, gc.Complete, gc.RootTargets, gc.UncollectableMarks, gc.Shape, gc.BlockShape;
    hide gc.MarkInv, Safe;
    ClearForFullGc(gc);
    ghost var from := gc.marked;
    JustifiedAtStart(gc.fields, gc.segs, from, from + gc.RootTargets());
    var after: nat := *;
    ok := StoppedMark(gc, if mayStop then After(after) else Never, from + gc.RootTargets());
    if ok {
      gc.CompleteMeansExact(from);
    }
  }

  /** The second half of `GC_try_to_collect_inner`: clear all marks and mark from scratch. */
  method FullCollection(gc: Collector, mayStop: bool) returns (ok: bool)
    requires gc.Valid() && !gc.worldStopped
    modifies gc`dirty, gc`dirtySegs, gc`grungy, gc`grungySegs, gc`marked, gc`stack, gc`markState, gc`stackTooSmall,
             gc`objectsAreMarked, gc`scanPtr, gc`stackSize, gc`aborted, gc`calls, gc`worldStopped, gc`deficit, gc`gcNo, gc`snapshots,
             gc`nAttempts, gc`isFullGc, gc`hdrs, gc`fields
    ensures gc.Valid() && !gc.worldStopped && Keeps(old(gc.fields), gc.fields, gc.RootTargets())
    ensures old(gc.snapshots) <= gc.snapshots
    ensures !mayStop ==> ok
    ensures ok ==> gc.Complete() && Finished(gc)
    ensures !ok ==> gc.isFullGc && gc.hdrs == old(gc.hdrs) && gc.fields == old(gc.fields)
    ensures !ok && !gc.incremental ==> gc.markState == Invalid && gc.stack == []
    ensures ok ==> MarksExactly(old(gc.fields), gc.marked, old(gc.UncollectableMarks()), gc.RootTargets())
  {
    hide BadObjs, BadSegs, Unmarked, BlocksOk, PointersOk, StateInv, Justified, EntryOk, Reaches, Keeps;
    hide gc.Recorded, gc.StackRootsMarked, gc.Complete, gc.RootTargets, gc.UncollectableMarks, gc.Shape, gc.BlockShape;
    hide gc.MarkInv, Safe;
    KeepsAll(gc.fields, gc.RootTargets());
    ok := MarkFromScratch(gc, mayStop);
    if ok {
      FinishCollection(gc);
    } else if !gc.incremental {
      gc.InvalidateMarkState();
    }
  }

  // -----------------------------------------------------------------------------------
  // Whole runs
  // -----------------------------------------------------------------------------------

  datatype Event =
    | ClientWritesObject(o: Obj, content: seq<Obj>, page: nat)
    | ClientWritesSegment(g: nat, content: seq<Obj>)
    | ClientWritesStack(content: seq<Obj>)
    | NewBlock(b: nat, h: Hdr)
    | ALittle(n: nat, advice: Advice)
    | Collect(mayStop: bool, dontGc: bool)

  /** What there is to see of the collector. */
  datatype View = View(hdrs: map<nat, Hdr>, fields: Graph, segs: seq<seq<Obj>>, stackRoots: seq<Obj>, marked: set<Obj>,
                       markState: MarkState, nAttempts: nat, isFullGc: bool, deficit: nat, gcNo: nat)

  function Look(gc: Collector): View
    reads gc
  {
    View(gc.hdrs, gc.fields, gc.segs, gc.stackRoots, gc.marked, gc.markState, gc.nAttempts, gc.isFullGc, gc.deficit, gc.gcNo)
  }

  /** The client holds pointers to objects only, and writes into objects that may hold pointers. */
  predicate MayWrite(v: View, o: Obj, content: seq<Obj>, page: nat) {
    && o in v.fields && o.blk in v.hdrs && v.hdrs[o.blk].HasDescr() && (forall q :: q in content ==> q in v.fields)
    && o.blk <= page < o.blk + v.hdrs[o.blk].nblks
  }

  predicate RoomFor(v: View, b: nat, h: Hdr) {
    && 1 <= b && 1 <= h.nblks && 1 <= h.nobjs <= MAX_OBJS_PER_BLOCK
    && (forall c :: c in v.hdrs ==> c + v.hdrs[c].nblks <= b || b + h.nblks <= c)
  }

  /** What an event does. */
  ghost predicate Happened(incremental: bool, v: View, e: Event, finished: bool, z: View) {
    match e
    case ClientWritesObject(o, content, page) =>
      z == if MayWrite(v, o, content, page) then v.(fields := v.fields[o := content]) else v
    case ClientWritesSegment(g, content) =>
      z == if g < |v.segs| && (forall q :: q in content ==> q in v.fields) then v.(segs := v.segs[g := content]) else v
    case ClientWritesStack(content) =>
      z == if forall q :: q in content ==> q in v.fields then v.(stackRoots := content) else v
    case NewBlock(b, h) =>
      if RoomFor(v, b, h) then
        && z.hdrs == v.hdrs[b := h] && (forall o :: o in v.fields ==> o.blk != b)
        && z.fields == WithBlock(v.fields, b, h.nobjs) && z.gcNo == v.gcNo
      else z == v
    case ALittle(n, advice) =>
      if n < 1 then z == v
      else if incremental && v.markState != MarkState.None then
        && LookedAt(v, finished, z) && (finished ==> !advice.dontGc)
        && (z.markState == MarkState.None && !advice.dontGc ==> finished)
      else if advice.dontGc || !advice.shouldCollect then z == v && !finished
      else LookedAt(v, finished, z) && (!incremental || !advice.timeLimited ==> finished)
    case Collect(mayStop, dontGc) =>
      (!mayStop && !dontGc ==> finished) && (dontGc ==> !finished && z == v) && (finished ==> z.gcNo > v.gcNo)
  }

  /** A collection has been finished, and garbage by its marks is gone, or nothing has been reclaimed. */
  ghost predicate LookedAt(v: View, finished: bool, z: View) {
    if finished then
      z.gcNo == v.gcNo + 1 && z.nAttempts == 0 && !z.isFullGc && Reclaimed(v.hdrs, v.fields, z.hdrs, z.fields, z.marked)
    else
      z.gcNo == v.gcNo && z.hdrs == v.hdrs && z.fields == v.fields
  }

  /** What the client does, if it is in a position to. */
  method ClientActs(gc: Collector, e: Event)
    requires gc.Valid() && !gc.worldStopped && !e.ALittle? && !e.Collect?
    modifies gc`fields, gc`dirty, gc`segs, gc`dirtySegs, gc`stackRoots, gc`hdrs, gc`heapTop, gc`marked
    ensures gc.Valid() && Happened(gc.incremental, old(Look(gc)), e, false, Look(gc))
  {
    hide Unmarked, Reclaimed, MarksExactly, BlocksOk, StateInv, EntryOk, WithBlock, Slots;
    hide gc.StackRootsMarked, gc.Complete, gc.Recorded;
    match e {
      case ClientWritesObject(o, content, page) =>
        if MayWrite(Look(gc), o, content, page) {
          WriteObject(gc, o, content, page);
        }
      case ClientWritesSegment(g, content) =>
        if g < |gc.segs| && (forall q :: q in content ==> q in gc.fields) {
          WriteSegment(gc, g, content);
        }
      case ClientWritesStack(content) =>
        if forall q :: q in content ==> q in gc.fields {
          WriteStack(gc, content);
        }
      case NewBlock(b, h) =>
        if RoomFor(Look(gc), b, h) {
          AllocBlock(gc, b, h);
        }
      case _ =>
    }
  }

  /** One event, which may be a collection. */
  method Perform(gc: Collector, e: Event) returns (finished: bool)
    requires gc.Valid() && !gc.worldStopped
    modifies gc
    ensures gc.Valid() && !gc.worldStopped && old(gc.snapshots) <= gc.snapshots
    ensures finished ==> gc.ReachableIsMarked() && gc.gcNo > old(gc.gcNo)
    ensures e.ALittle? || e.Collect? ==> Keeps(old(gc.fields), gc.fields, gc.RootTargets())
    ensures Happened(gc.incremental, old(Look(gc)), e, finished, Look(gc))
  {
    hide gc.Valid, Unmarked, Reclaimed, MarksExactly, Keeps, MayWrite, RoomFor, WithBlock;
    hide gc.Complete, gc.ReachableIsMarked, gc.RootTargets;
    KeepsAll(gc.fields, gc.RootTargets());
    finished := false;
    match e {
      case ALittle(n, advice) =>
        if 1 <= n {
          finished := CollectALittle(gc, n, advice);
        }
      case Collect(mayStop, dontGc) =>
        finished := TryToCollect(gc, mayStop, dontGc);
      case _ =>
        ClientActs(gc, e);
    }
    if finished {
      gc.CompleteMeansReachableIsMarked();
    }
  }

  /**
   Any interleaving of client writes, allocations, marking steps and collections: the state
   stays valid, no run ends in an abort, the record grows with the number of collections, one
   snapshot for each, and in every one of them all that the client could reach was marked.
   */
  method Run(gc: Collector, events: seq<Event>) returns (ghost log: seq<bool>, ghost trace: seq<View>)
    requires gc.Valid() && !gc.worldStopped
    modifies gc
    // One event after the other has had its effect.
    ensures |trace| == |log| + 1 == |events| + 1 && trace[0] == old(Look(gc)) && trace[|events|] == Look(gc)
    ensures forall i :: 0 <= i < |events| ==> Happened(gc.incremental, trace[i], events[i], log[i], trace[i + 1])
    ensures gc.Valid() && !gc.worldStopped && !gc.aborted
    ensures old(gc.snapshots) <= gc.snapshots && |gc.snapshots| == gc.gcNo
    ensures forall c :: c in gc.snapshots ==> Safe(c)
  {
    hide BlocksOk, PointersOk, StateInv, EntryOk, Keeps, Safe, gc.StackRootsMarked, Happened;
    log, trace := [], [Look(gc)];
    for i := 0 to |events|
      invariant |trace| == |log| + 1 == i + 1 && trace[0] == old(Look(gc)) && trace[i] == Look(gc)
      invariant forall k :: 0 <= k < i ==> Happened(gc.incremental, trace[k], events[k], log[k], trace[k + 1])
      invariant gc.Valid() && !gc.worldStopped && old(gc.snapshots) <= gc.snapshots
    {
      var finished := Perform(gc, events[i]);
      log, trace := log + [finished], trace + [Look(gc)];
    }
  }
}
