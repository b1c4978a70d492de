/**
 Finalization: which objects are enqueued, what is kept alive for them, and which links to
 dead objects are cleared.
 */
module Finalize {
  import opened ObjectGraph
  import opened Sets
  import opened MarkPhase
  import opened CollectionDriver
  import H = HashTables

  /** How marking goes on from a finalizable object: through all its pointers, all but those to itself, or none. */
  datatype MarkProc = NormalProc | IgnoreSelfProc | NullProc

  /** A finalizable object: its mark procedure and its finalizer. */
  datatype Fo = Fo(obj: Obj, proc: MarkProc, fn: nat)

  /** The target of a disappearing link, and the object that holds the link, if any does. */
  datatype Link = Link(obj: Obj, base: H.Option<Obj>)

  predicate Follows(f: Fo, q: Obj) {
    match f.proc
    case NormalProc => true
    case IgnoreSelfProc => q != f.obj
    case NullProc => false
  }

  /** The objects that the mark procedures of `fos` start from. */
  ghost function Starts(g: Graph, fos: set<Fo>): set<Obj> {
    set f, q | f in fos && f.obj in g && q in g[f.obj] && Follows(f, q) :: q
  }

  /** The registered objects, among those with these keys, that are not marked. */
  ghost function Victims(m: map<nat, Fo>, keys: set<nat>, marked: set<Obj>): set<Fo> {
    set k | k in keys && k in m && m[k].obj !in marked :: m[k]
  }

  ghost function Objects(fos: set<Fo>): set<Obj> {
    set f | f in fos :: f.obj
  }

  // -----------------------------------------------------------------------------------
  // What the marks mean for the queue
  // -----------------------------------------------------------------------------------

  lemma {:induction false} ReachesFromLarger(g: Graph, a: set<Obj>, b: set<Obj>)
    requires a <= b
    ensures forall o :: Reaches(g, a, o) ==> Reaches(g, b, o)
  {
    forall o | o in a ensures Reaches(g, b, o) {
      ReachesSelf(g, b, o);
    }
    ReachesThrough(g, b, a);
  }

  lemma {:induction false} ReachesFromOutside(g: Graph, closed: set<Obj>, s: set<Obj>, o: Obj, n: nat)
    requires Closed(g, closed) && o !in closed && ReachesIn(g, closed + s, o, n)
    ensures ReachesIn(g, s, o, n)
    decreases n
  {
    if n > 0 {
      var p :| p in g && o in g[p] && ReachesIn(g, closed + s, p, n - 1);
      ReachesFromOutside(g, closed, s, p, n - 1);
    }
  }

  /** Starting from a closed set too adds nothing but that set. */
  lemma ReachesBesides(g: Graph, closed: set<Obj>, s: set<Obj>)
    requires Closed(g, closed)
    ensures forall o :: Reaches(g, closed + s, o) <==> o in closed || Reaches(g, s, o)
  {
    ReachesFromLarger(g, s, closed + s);
    forall o | o in closed ensures Reaches(g, closed + s, o) {
      ReachesSelf(g, closed + s, o);
    }
    forall o | Reaches(g, closed + s, o) && o !in closed ensures Reaches(g, s, o) {
      var n: nat :| ReachesIn(g, closed + s, o, n);
      ReachesFromOutside(g, closed, s, o, n);
    }
  }

  /**
   The result of the first pass: the marks are those on entry, what the mark procedures of the
   victims lead to, and what the objects lead to that an overflow of the mark stack has marked.
   */
  ghost predicate MarkedFrom(g: Graph, entry: set<Obj>, victims: set<Fo>, overflowed: set<Obj>, marked: set<Obj>) {
    && Closed(g, entry) && overflowed <= Objects(victims)
    && forall o :: o in marked <==> Reaches(g, entry + Starts(g, victims) + overflowed, o)
  }

  /** What ought to be enqueued: victims to which no chain of pointers leads from what a victim's mark procedure reaches. */
  ghost predicate OughtToBeEnqueued(g: Graph, victims: set<Fo>, f: Fo) {
    f in victims && !Reaches(g, Starts(g, victims), f.obj)
  }

  /** What is enqueued: the victims that the first pass has left unmarked. */
  ghost predicate LeftUnmarked(victims: set<Fo>, marked: set<Obj>, f: Fo) {
    f in victims && f.obj !in marked
  }

  /**
   Exactly when finalization is right: just the victims that ought to be enqueued are enqueued
   if and only if every object that was marked because the mark stack overflowed is reachable
   by the pointers of victims anyway. In particular it is right when there is no overflow.
   */
  lemma EnqueuesExactly(g: Graph, entry: set<Obj>, victims: set<Fo>, overflowed: set<Obj>, marked: set<Obj>)
    requires MarkedFrom(g, entry, victims, overflowed, marked)
    requires forall f :: f in victims ==> f.obj !in entry
    ensures (forall f :: LeftUnmarked(victims, marked, f) <==> OughtToBeEnqueued(g, victims, f))
       <==> (forall o :: o in overflowed ==> Reaches(g, Starts(g, victims), o))
  {
    var s := Starts(g, victims);
    assert entry + s + overflowed == entry + (s + overflowed);
    ReachesBesides(g, entry, s + overflowed);
    ReachesFromLarger(g, s, s + overflowed);
    if forall o :: o in overflowed ==> Reaches(g, s, o) {
      forall o | o in s ensures Reaches(g, s, o) {
        ReachesSelf(g, s, o);
      }
      ReachesThrough(g, s, s + overflowed);
    } else {
      var o :| o in overflowed && !Reaches(g, s, o);
      var f :| f in victims && f.obj == o;
      ReachesSelf(g, s + overflowed, o);
      assert OughtToBeEnqueued(g, victims, f) && !LeftUnmarked(victims, marked, f);
    }
  }

  /** An object on a cycle of pointers is never enqueued if its mark procedure follows the cycle. */
  lemma CyclesAreNeverEnqueued(g: Graph, entry: set<Obj>, victims: set<Fo>, overflowed: set<Obj>, marked: set<Obj>, f: Fo)
    requires MarkedFrom(g, entry, victims, overflowed, marked)
    requires f in victims && Reaches(g, Starts(g, {f}), f.obj)
    ensures !LeftUnmarked(victims, marked, f)
  {
    assert Starts(g, {f}) <= entry + Starts(g, victims) + overflowed;
    ReachesFromLarger(g, Starts(g, {f}), entry + Starts(g, victims) + overflowed);
  }

  /**
   Whatever an enqueued object leads to is marked after the first pass, but for the object itself,
   if and only if its mark procedure has looked at its pointers, or these lead nowhere else.
   */
  lemma QueueIsKeptAlive(g: Graph, entry: set<Obj>, victims: set<Fo>, overflowed: set<Obj>, marked: set<Obj>, f: Fo)
    requires MarkedFrom(g, entry, victims, overflowed, marked)
    requires LeftUnmarked(victims, marked, f) && f.obj in g
    ensures (forall o :: Reaches(g, {f.obj}, o) ==> o in marked + {f.obj})
       <==> (f.proc != NullProc || forall q :: q in g[f.obj] ==> q in marked + {f.obj})
  {
    ReachesSelf(g, {f.obj}, f.obj);
    if f.proc != NullProc || forall q :: q in g[f.obj] ==> q in marked + {f.obj} {
      forall p, q | p in marked + {f.obj} && p in g && q in g[p] ensures q in marked + {f.obj} {
        if p in marked || f.proc != NullProc {
          PointersAreMarked(g, entry, victims, overflowed, marked, f, p, q);
        }
      }
      ClosedContainsReachable(g, {f.obj}, marked + {f.obj});
    } else {
      var q :| q in g[f.obj] && q !in marked + {f.obj};
      ReachesStep(g, {f.obj}, f.obj, q);
    }
  }

  /** What the marks of the first pass and an enqueued object with a proper mark procedure point to. */
  lemma PointersAreMarked(g: Graph, entry: set<Obj>, victims: set<Fo>, overflowed: set<Obj>, marked: set<Obj>, f: Fo, p: Obj, q: Obj)
    requires MarkedFrom(g, entry, victims, overflowed, marked) && LeftUnmarked(victims, marked, f)
    requires p in g && q in g[p] && (p in marked || (p == f.obj && f.proc != NullProc))
    ensures q in marked + {f.obj}
  {
    var s := entry + Starts(g, victims) + overflowed;
    if p in marked {
      ReachesStep(g, s, p, q);
    } else if q != f.obj {
      assert q in Starts(g, victims);
      ReachesSelf(g, s, q);
    }
  }

  /** The marks after finalization: those of the first pass, and the objects enqueued. */
  ghost predicate FinalMarks(victims: set<Fo>, marked: set<Obj>, after: set<Obj>) {
    forall o :: o in after <==> o in marked || exists f :: LeftUnmarked(victims, marked, f) && f.obj == o
  }

  /** All that is enqueued can be used by the finalizers: what it leads to is marked. */
  ghost predicate QueueIsSafe(g: Graph, victims: set<Fo>, marked: set<Obj>, after: set<Obj>) {
    forall f, o :: LeftUnmarked(victims, marked, f) && Reaches(g, {f.obj}, o) ==> o in after
  }

  /** No object that is enqueued without its pointers having been looked at points to something unmarked. */
  ghost predicate NullProcsLeadNowhere(g: Graph, victims: set<Fo>, marked: set<Obj>, after: set<Obj>) {
    forall f, q :: LeftUnmarked(victims, marked, f) && f.proc == NullProc && f.obj in g && q in g[f.obj] ==> q in after
  }

  /** The same for the queue as a whole: what it leads to is marked if and only if the pointers of null procedures are. */
  lemma WholeQueueIsKeptAlive(g: Graph, entry: set<Obj>, victims: set<Fo>, overflowed: set<Obj>, marked: set<Obj>, after: set<Obj>)
    requires MarkedFrom(g, entry, victims, overflowed, marked) && FinalMarks(victims, marked, after)
    ensures QueueIsSafe(g, victims, marked, after) <==> NullProcsLeadNowhere(g, victims, marked, after)
  {
    if NullProcsLeadNowhere(g, victims, marked, after) {
      forall p, q | p in after && p in g && q in g[p] ensures q in after {
        if p in marked {
          ReachesStep(g, entry + Starts(g, victims) + overflowed, p, q);
        } else {
          var f :| LeftUnmarked(victims, marked, f) && f.obj == p;
          if f.proc != NullProc {
            PointersAreMarked(g, entry, victims, overflowed, marked, f, p, q);
          }
        }
      }
      forall f | LeftUnmarked(victims, marked, f) ensures forall o :: Reaches(g, {f.obj}, o) ==> o in after {
        ClosedContainsReachable(g, {f.obj}, after);
      }
    } else {
      var f, q :| LeftUnmarked(victims, marked, f) && f.proc == NullProc && f.obj in g && q in g[f.obj] && q !in after;
      ReachesSelf(g, {f.obj}, f.obj);
      ReachesStep(g, {f.obj}, f.obj, q);
    }
  }

  lemma StartsOfOneMore(g: Graph, m: map<nat, Fo>, keys: set<nat>, k: nat, entry: set<Obj>)
    requires k in m
    ensures Victims(m, keys + {k}, entry) == Victims(m, keys, entry) + (if m[k].obj in entry then {} else {m[k]})
    ensures Starts(g, Victims(m, keys + {k}, entry)) ==
            Starts(g, Victims(m, keys, entry)) + (if m[k].obj in entry then {} else Starts(g, {m[k]}))
  {
    assert Victims(m, keys + {k}, entry) == Victims(m, keys, entry) + (if m[k].obj in entry then {} else {m[k]});
  }

  // -----------------------------------------------------------------------------------
  // The first pass goes on
  // -----------------------------------------------------------------------------------

  /** The first pass has dealt with the entries under `keys`. */
  ghost predicate PassedOver(g: Graph, m: map<nat, Fo>, keys: set<nat>, entry: set<Obj>, overflowed: set<Obj>, marked: set<Obj>) {
    var s := entry + Starts(g, Victims(m, keys, entry)) + overflowed;
    && overflowed <= Objects(Victims(m, keys, entry)) && s <= marked
    && forall o :: o in marked ==> Reaches(g, s, o)
  }

  lemma PassStarts(g: Graph, m: map<nat, Fo>, entry: set<Obj>)
    ensures PassedOver(g, m, {}, entry, {}, entry)
  {
    forall o | o in entry ensures Reaches(g, entry + {} + {}, o) {
      ReachesSelf(g, entry + {} + {}, o);
    }
    assert entry + Starts(g, Victims(m, {}, entry)) + {} == entry + {} + {};
  }

  /** Entry `k` was marked when the pass came to it: its pointers lead to marked objects already. */
  lemma PassSkips(g: Graph, m: map<nat, Fo>, keys: set<nat>, k: nat, entry: set<Obj>, overflowed: set<Obj>, marked: set<Obj>)
    requires PassedOver(g, m, keys, entry, overflowed, marked) && k in m && m[k].obj in marked && Closed(g, marked)
    ensures PassedOver(g, m, keys + {k}, entry, overflowed, marked)
  {
    StartsOfOneMore(g, m, keys, k, entry);
    var s := entry + Starts(g, Victims(m, keys, entry)) + overflowed;
    ReachesFromLarger(g, s, entry + Starts(g, Victims(m, keys + {k}, entry)) + overflowed);
  }

  /** Entry `k` was not marked, and its mark procedure has been run. */
  lemma PassMarks(g: Graph, m: map<nat, Fo>, keys: set<nat>, k: nat, entry: set<Obj>, overflowed: set<Obj>,
                  before: set<Obj>, more: set<Obj>, after: set<Obj>)
    requires PassedOver(g, m, keys, entry, overflowed, before) && k in m && m[k].obj !in before && entry <= before
    requires before + Starts(g, {m[k]}) + more <= after && more <= {m[k].obj}
    requires forall o :: o in after ==> Reaches(g, before + Starts(g, {m[k]}) + more, o)
    ensures PassedOver(g, m, keys + {k}, entry, overflowed + more, after)
  {
    StartsOfOneMore(g, m, keys, k, entry);
    var s := entry + Starts(g, Victims(m, keys, entry)) + overflowed;
    var z := entry + Starts(g, Victims(m, keys + {k}, entry)) + (overflowed + more);
    ReachesFromLarger(g, s, z);
    forall o | o in before + Starts(g, {m[k]}) + more ensures Reaches(g, z, o) {
      if o !in before {
        ReachesSelf(g, z, o);
      }
    }
    ReachesThrough(g, z, before + Starts(g, {m[k]}) + more);
  }

  lemma PassEnds(g: Graph, m: map<nat, Fo>, entry: set<Obj>, overflowed: set<Obj>, marked: set<Obj>)
    requires PassedOver(g, m, m.Keys, entry, overflowed, marked) && Closed(g, marked) && Closed(g, entry)
    ensures MarkedFrom(g, entry, Victims(m, m.Keys, entry), overflowed, marked)
  {
    ClosedContainsReachable(g, entry + Starts(g, Victims(m, m.Keys, entry)) + overflowed, marked);
  }

  // -----------------------------------------------------------------------------------
  // The collector's side
  // -----------------------------------------------------------------------------------

  /** Marking is complete, and the client has written to nothing since. */
  ghost predicate Settled(gc: Collector)
    reads gc
  {
    && gc.BlockShape() && gc.Shape() && gc.FewSegs() && !gc.aborted && gc.Complete()
    && gc.dirty == {} && gc.dirtySegs == {}
  }

  lemma SettledIsMarking(gc: Collector)
    requires Settled(gc)
    ensures gc.Marking() && gc.StackRootsMarked()
    ensures BadObjs(gc.fields, gc.marked, gc.stack) == {} && BadSegs(gc.segs, gc.marked, gc.stack) == {}
  {
    forall i, q | 0 <= i < |gc.segs| && q in gc.segs[i] ensures q in gc.marked {
      assert q in gc.RootTargets();
    }
  }

  /** The mark stack has been emptied without an overflow. */
  lemma DrainedIsSettled(gc: Collector)
    requires gc.BlockShape() && gc.Shape() && gc.FewSegs() && !gc.aborted && gc.dirty == {} && gc.dirtySegs == {}
    requires gc.markState == MarkState.None && gc.stack == [] && gc.StackRootsMarked()
    requires BadObjs(gc.fields, gc.marked, gc.stack) == {} && BadSegs(gc.segs, gc.marked, gc.stack) == {}
    ensures Settled(gc)
  {
    gc.MarkInvAtEnd();
  }

  /** What the mark procedures leave: everything justified by `s`, and nothing that would be overlooked. */
  ghost predicate Pushed(gc: Collector, s: set<Obj>)
    reads gc
  {
    && gc.Shape() && gc.markState in {MarkState.None, Invalid} && gc.StackRootsMarked()
    && (gc.markState == Invalid ==> gc.stack != [])
    && (gc.markState != Invalid ==> BadObjs(gc.fields, gc.marked, gc.stack) == {} && BadSegs(gc.segs, gc.marked, gc.stack) == {})
    && Justified(gc.fields, gc.segs, gc.marked, gc.stack, s)
  }

  lemma SettledIsPushed(gc: Collector, s: set<Obj>)
    requires Settled(gc) && gc.marked <= s
    ensures Pushed(gc, s)
  {
    SettledIsMarking(gc);
    forall o | o in s ensures Reaches(gc.fields, s, o) {
      ReachesSelf(gc.fields, s, o);
    }
  }

  /**
   The mark stack is large enough: it can hold, for each unmarked object with pointers, the entries
   that its range can take at the same time, and besides those of any one object.
   */
  ghost predicate StackSuffices(gc: Collector)
    reads gc`hdrs, gc`fields, gc`marked, gc`stackSize
  {
    var n := |ToBeScanned(gc.parallel, gc.hdrs, gc.fields, gc.marked)|;
    && n <= gc.stackSize
    && forall o :: o in gc.fields && o.blk in gc.hdrs ==> n + Depth(gc.parallel, gc.hdrs[o.blk].ObjWords()) <= gc.stackSize
  }

  twostate lemma StackStillSuffices(gc: Collector)
    requires old(gc.marked) <= gc.marked && gc.hdrs == old(gc.hdrs) && gc.fields == old(gc.fields)
    requires old(gc.stackSize) <= gc.stackSize
    ensures old(StackSuffices(gc)) ==> StackSuffices(gc)
  {
    SubsetCardinality(ToBeScanned(gc.parallel, gc.hdrs, gc.fields, gc.marked),
                      old(ToBeScanned(gc.parallel, gc.hdrs, gc.fields, gc.marked)));
  }

  /** One whole object on the stack, and what is unmarked, is no more than a sufficient stack can hold. */
  lemma OneObjectFits(gc: Collector, o: Obj)
    requires StackSuffices(gc) && o in gc.fields && gc.BlockShape() && (gc.stack == [] || gc.stack == [ObjRange(o)])
    ensures gc.Roomy()
  {
  }

  /** `GC_normal_finalize_mark_proc`. */
  method PushSelf(gc: Collector, o: Obj, ghost s: set<Obj>)
    requires Settled(gc) && o in gc.fields && gc.marked <= s && forall q :: q in gc.fields[o] ==> q in s
    modifies gc`marked, gc`stack, gc`markState, gc`stackTooSmall
    ensures gc.marked == old(gc.marked) && Pushed(gc, s) && gc.markState == MarkState.None && gc.Covered(o)
    ensures old(StackSuffices(gc)) ==> gc.Roomy()
  {
    hide StackSuffices, gc.Roomy;
    SettledIsPushed(gc, s);
    gc.PushObj(o, s);
    WholeIsAwaited(gc.fields[o], [ObjRange(o)], ObjRange(o));
    forall q | q in gc.fields[o] ensures Reaches(gc.fields, s, q) {
      ReachesSelf(gc.fields, s, q);
    }
    assert gc.stack == [] || gc.stack == [ObjRange(o)];
    StackStillSuffices(gc);
    if StackSuffices(gc) {
      OneObjectFits(gc, o);
    }
  }

  /** `GC_ignore_self_finalize_mark_proc`: so many pointers may overflow the mark stack. */
  method PushOthers(gc: Collector, o: Obj, ghost s: set<Obj>)
    requires Settled(gc) && o in gc.fields && gc.marked <= s && forall q :: q in gc.fields[o] && q != o ==> q in s
    modifies gc`marked, gc`stack, gc`markState, gc`stackTooSmall
    ensures old(gc.marked) <= gc.marked && Pushed(gc, s)
    ensures forall q :: q in gc.fields[o] && q != o ==> q in gc.marked
    ensures old(|ToBePushed(gc.hdrs, gc.marked, o, gc.fields[o])|) > gc.stackSize ==> gc.markState == Invalid
    ensures old(StackSuffices(gc)) ==> gc.markState == MarkState.None && gc.Roomy()
  {
    SettledIsPushed(gc, s);
    StackSufficesIsRoomy(gc);
    ghost var marked0 := gc.marked;
    hide gc.Roomy, StackSuffices, Justified, BadObjs, BadSegs, gc.StackShape, PointersOk, BlocksOk, ToBePushed, Pushed;
    FieldsAreObjects(gc, o);
    NothingToPush(gc.hdrs, marked0, o);
    var c := gc.fields[o];
    for i := 0 to |c|
      invariant old(gc.marked) <= gc.marked && Pushed(gc, s)
      invariant forall q :: q in gc.marked <==> q in marked0 || (q in c[..i] && q != o)
      invariant gc.markState != Invalid ==> |ToBePushed(gc.hdrs, marked0, o, c[..i])| <= |gc.stack|
      invariant old(StackSuffices(gc)) ==> gc.markState == MarkState.None && gc.Roomy()
    {
      assert c[..i + 1] == c[..i] + [c[i]];
      OneMoreToPush(gc.hdrs, marked0, o, c[..i], c[i]);
      if c[i] != o {
        ReachesSelf(gc.fields, s, c[i]);
        PushOther(gc, c[i], s);
      }
    }
    assert c[..|c|] == c;
    StackFits(gc, s);
  }

  lemma StackSufficesIsRoomy(gc: Collector)
    requires Settled(gc)
    ensures gc.markState == MarkState.None && (StackSuffices(gc) ==> gc.Roomy())
  {
  }

  method PushOther(gc: Collector, q: Obj, ghost s: set<Obj>)
    requires Pushed(gc, s) && q in gc.fields && Reaches(gc.fields, s, q)
    modifies gc`marked, gc`stack, gc`markState, gc`stackTooSmall
    ensures Pushed(gc, s) && gc.marked == old(gc.marked) + {q}
    ensures old(gc.Roomy()) ==> gc.Roomy() && gc.markState == old(gc.markState)
    ensures gc.markState != Invalid ==> old(gc.markState) != Invalid && |gc.stack| >= |old(gc.stack)|
    ensures gc.markState != Invalid && q !in old(gc.marked) && q.blk in gc.hdrs && gc.hdrs[q.blk].HasDescr() ==>
              |gc.stack| > |old(gc.stack)|
  {
    hide Justified, BadObjs, BadSegs, gc.Roomy;
    gc.MarkAndPush(q, s);
  }

  lemma StackFits(gc: Collector, s: set<Obj>)
    requires Pushed(gc, s)
    ensures |gc.stack| <= gc.stackSize
  {
  }

  /** The objects with pointers in them among the targets `c` of an object's pointers that are not marked yet. */
  ghost function ToBePushed(hdrs: map<nat, Hdr>, marked: set<Obj>, o: Obj, c: seq<Obj>): set<Obj> {
    set q | q in c && q != o && q !in marked && q.blk in hdrs && hdrs[q.blk].HasDescr()
  }

  lemma OneMoreToPush(hdrs: map<nat, Hdr>, marked: set<Obj>, o: Obj, c: seq<Obj>, q: Obj)
    ensures var before, after := ToBePushed(hdrs, marked, o, c), ToBePushed(hdrs, marked, o, c + [q]);
      && |after| <= |before| + 1
      && (q == o || q in marked || q in c || q.blk !in hdrs || !hdrs[q.blk].HasDescr() ==> after == before)
  {
    var before, after := ToBePushed(hdrs, marked, o, c), ToBePushed(hdrs, marked, o, c + [q]);
    SubsetCardinality(after, before + {q});
  }

  lemma FieldsAreObjects(gc: Collector, o: Obj)
    requires Settled(gc) && o in gc.fields
    ensures forall q :: q in gc.fields[o] ==> q in gc.fields
  {
  }

  lemma NothingToPush(hdrs: map<nat, Hdr>, marked: set<Obj>, o: Obj)
    ensures ToBePushed(hdrs, marked, o, []) == {}
  {
  }

  /** The mark procedures. */
  method RunMarkProc(gc: Collector, f: Fo, ghost s: set<Obj>)
    requires Settled(gc) && f.obj in gc.fields && s == gc.marked + Starts(gc.fields, {f})
    modifies gc`marked, gc`stack, gc`markState, gc`stackTooSmall
    ensures old(gc.marked) <= gc.marked && Pushed(gc, s)
    ensures gc.markState != Invalid && f.proc == NormalProc ==> gc.Covered(f.obj)
    ensures gc.markState != Invalid && f.proc == IgnoreSelfProc ==> Starts(gc.fields, {f}) <= gc.marked
    ensures f.proc == IgnoreSelfProc && old(|ToBePushed(gc.hdrs, gc.marked, f.obj, gc.fields[f.obj])|) > gc.stackSize ==>
              gc.markState == Invalid
    ensures old(StackSuffices(gc)) ==> gc.markState == MarkState.None && gc.Roomy()
  {
    StackSufficesIsRoomy(gc);
    hide Pushed, Settled, ToBePushed, StackSuffices, gc.Roomy;
    match f.proc {
      case NormalProc => PushSelf(gc, f.obj, s);
      case IgnoreSelfProc => PushOthers(gc, f.obj, s);
      case NullProc => SettledIsPushed(gc, s);
    }
  }

  /** The inner loop of `GC_MARK_FO`: the mark stack is emptied, with or without an overflow. */
  method EmptyMarkStack(gc: Collector, ghost s: set<Obj>)
    requires Pushed(gc, s)
    modifies gc`marked, gc`stack, gc`markState, gc`stackTooSmall, gc`objectsAreMarked
    ensures gc.Shape() && gc.stack == [] && gc.markState in {MarkState.None, Invalid} && gc.StackRootsMarked()
    ensures old(gc.marked) <= gc.marked && Justified(gc.fields, gc.segs, gc.marked, gc.stack, s)
    ensures gc.markState == Invalid ==> gc.objectsAreMarked
    ensures gc.markState != Invalid ==> old(gc.markState) != Invalid
    ensures gc.markState != Invalid ==> BadObjs(gc.fields, gc.marked, gc.stack) == {} && BadSegs(gc.segs, gc.marked, gc.stack) == {}
    ensures gc.markState != Invalid ==> forall o :: old(gc.Covered(o)) ==> gc.Covered(o)
    ensures old(gc.Roomy()) ==> gc.markState == old(gc.markState)
  {
    hide Justified, BadObjs, BadSegs, gc.GraphShape, gc.Covered, gc.StackRootsMarked, Unmarked, gc.Roomy;
    ghost var first := true;
    while gc.stack != []
      invariant gc.Shape() && gc.markState in {MarkState.None, Invalid} && gc.StackRootsMarked()
      invariant old(gc.marked) <= gc.marked && Justified(gc.fields, gc.segs, gc.marked, gc.stack, s)
      invariant gc.markState == Invalid ==> gc.objectsAreMarked || gc.stack != []
      invariant gc.markState != Invalid ==> old(gc.markState) != Invalid
      invariant gc.markState != Invalid ==> BadObjs(gc.fields, gc.marked, gc.stack) == {} && BadSegs(gc.segs, gc.marked, gc.stack) == {}
      invariant gc.markState != Invalid ==> forall o :: old(gc.Covered(o)) ==> gc.Covered(o)
      invariant old(gc.Roomy()) ==> gc.Roomy() && gc.markState == old(gc.markState)
      decreases Unmarked(gc.fields, gc.marked), gc.Excesses(), |gc.stack|
    {
      label L:
      gc.MarkFrom(s);
      MarkingLowersUnmarked(gc.fields, old@L(gc.marked), gc.marked);
    }
  }

  lemma JustifiedByMore(g: Graph, segs: seq<seq<Obj>>, marked: set<Obj>, stack: seq<Entry>, s: set<Obj>, o: Obj)
    requires Justified(g, segs, marked, stack, s)
    ensures Justified(g, segs, marked + {o}, stack, s + {o})
  {
    ReachesFromLarger(g, s, s + {o});
    ReachesSelf(g, s + {o}, o);
  }

  /** After an overflow: the object itself is marked, and marking is completed by rescanning the heap. */
  method RecoverFromOverflow(gc: Collector, o: Obj, ghost s: set<Obj>)
    requires gc.BlockShape() && gc.Shape() && gc.FewSegs() && !gc.aborted && gc.dirty == {} && gc.dirtySegs == {}
    requires gc.markState == Invalid && gc.objectsAreMarked && gc.StackRootsMarked() && o in gc.fields
    requires Justified(gc.fields, gc.segs, gc.marked, gc.stack, s) && gc.RootTargets() <= s
    modifies gc`marked, gc`stack, gc`markState, gc`stackTooSmall, gc`objectsAreMarked, gc`scanPtr, gc`stackSize, gc`aborted, gc`calls
    ensures Settled(gc) && old(gc.marked) + {o} <= gc.marked
    ensures forall x :: x in gc.marked ==> Reaches(gc.fields, s + {o}, x)
  {
    hide Justified, BlocksOk, PointersOk;
    JustifiedByMore(gc.fields, gc.segs, gc.marked, gc.stack, s, o);
    gc.marked := gc.marked + {o};
    var _, _ := MarkUntilDone(gc, Never, s + {o});
    gc.MarkInvAtEnd();
    forall x | x in gc.marked ensures Reaches(gc.fields, s + {o}, x) {
      JustifiedMark(gc.fields, gc.segs, gc.marked, gc.stack, s + {o}, x);
    }
  }

  /** The mark procedure of `f` alone pushes more than the mark stack can hold. */
  ghost predicate Overwhelms(gc: Collector, f: Fo)
    reads gc`hdrs, gc`fields, gc`marked, gc`stackSize
  {
    f.proc == IgnoreSelfProc && f.obj in gc.fields && |ToBePushed(gc.hdrs, gc.marked, f.obj, gc.fields[f.obj])| > gc.stackSize
  }

  /** `GC_MARK_FO`. */
  method MarkFo(gc: Collector, f: Fo) returns (ghost overflow: bool)
    requires Settled(gc) && f.obj in gc.fields && f.obj !in gc.marked
    modifies gc`marked, gc`stack, gc`markState, gc`stackTooSmall, gc`objectsAreMarked, gc`scanPtr, gc`stackSize, gc`aborted, gc`calls
    ensures Settled(gc)
    ensures var more := if overflow then {f.obj} else {};
      && old(gc.marked) + Starts(gc.fields, {f}) + more <= gc.marked
      && forall x :: x in gc.marked ==> Reaches(gc.fields, old(gc.marked) + Starts(gc.fields, {f}) + more, x)
    ensures old(Overwhelms(gc, f)) ==> overflow
    ensures old(StackSuffices(gc)) ==> !overflow && StackSuffices(gc)
  {
    hide StackSuffices, gc.Roomy;
    hide Justified, Pushed, Starts, ToBePushed, BadObjs, BadSegs, Reaches, gc.Shape, gc.StackRootsMarked, gc.Covered, gc.Complete;
    ghost var s := gc.marked + Starts(gc.fields, {f});
    RootsInMarks(gc);
    RunMarkProc(gc, f, s);
    EmptyMarkStack(gc, s);
    overflow := gc.markState != MarkState.None;
    if gc.markState != MarkState.None {
      RecoverFromOverflow(gc, f.obj, s);
      MarkedHasStarts(gc, f);
    } else {
      DrainedIsSettled(gc);
      StartsAreMarked(gc, f);
      AllJustified(gc, s);
      StackStillSuffices(gc);
      assert s + {} == s;
    }
  }

  lemma StartsAreMarked(gc: Collector, f: Fo)
    requires gc.stack == [] && (f.proc == NormalProc ==> gc.Covered(f.obj))
    requires f.proc == IgnoreSelfProc ==> Starts(gc.fields, {f}) <= gc.marked
    ensures Starts(gc.fields, {f}) <= gc.marked
  {
  }

  lemma MarkedHasStarts(gc: Collector, f: Fo)
    requires Settled(gc) && f.obj in gc.marked
    ensures Starts(gc.fields, {f}) <= gc.marked
  {
  }

  lemma AllJustified(gc: Collector, s: set<Obj>)
    requires Justified(gc.fields, gc.segs, gc.marked, gc.stack, s)
    ensures forall x :: x in gc.marked ==> Reaches(gc.fields, s, x)
  {
  }

  lemma RootsInMarks(gc: Collector)
    requires Settled(gc)
    ensures gc.RootTargets() <= gc.marked
  {
  }

  // -----------------------------------------------------------------------------------
  // Passing over the tables
  // -----------------------------------------------------------------------------------

  /** Exactly the cells at these addresses have been cleared. */
  ghost predicate Cleared(before: map<nat, H.Option<Obj>>, after: map<nat, H.Option<Obj>>, gone: set<nat>) {
    forall k ::
      if k in gone then k in after && after[k] == H.None
      else (k in after <==> k in before) && (k in before ==> after[k] == before[k])
  }

  ghost predicate SubMap<V(!new)>(a: map<nat, V>, b: map<nat, V>) {
    forall k :: k in a ==> k in b && a[k] == b[k]
  }

  predicate LinkStays(l: Link, dangling: bool, marked: set<Obj>) {
    if dangling then l.base.None? || l.base.value in marked else l.obj in marked
  }

  /** The links of the table that go, by address. */
  ghost function Leaving(m: map<nat, Link>, dangling: bool, marked: set<Obj>): set<nat> {
    set k | k in m && !LinkStays(m[k], dangling, marked)
  }

  /** What has been done to the links so far: those gone were to go, and their cells are cleared. */
  ghost predicate LinksSorted(m: map<nat, Link>, left: map<nat, Link>, gone: set<nat>, dangling: bool, marked: set<Obj>,
                              cells: map<nat, H.Option<Obj>>, cleared: map<nat, H.Option<Obj>>)
  {
    && SubMap(left, m)
    && (forall k :: k in gone ==> k in m && !LinkStays(m[k], dangling, marked))
    && (forall k :: k in m <==> k in left || k in gone)
    && Cleared(cells, cleared, if dangling then {} else gone)
  }

  lemma OneLinkLess(m: map<nat, Link>, left: map<nat, Link>, gone: set<nat>, dangling: bool, marked: set<Obj>,
                    cells: map<nat, H.Option<Obj>>, cleared: map<nat, H.Option<Obj>>, k: nat)
    requires LinksSorted(m, left, gone, dangling, marked, cells, cleared)
    requires k in left && !LinkStays(left[k], dangling, marked)
    ensures LinksSorted(m, left - {k}, gone + {k}, dangling, marked, cells, if dangling then cleared else cleared[k := H.None])
  {
  }

  /** `GC_make_disappearing_links_disappear`: links to dead objects are cleared, links in dead objects forgotten. */
  method MakeLinksDisappear(t: H.Table<Link>, dangling: bool, marked: set<Obj>, cells: map<nat, H.Option<Obj>>)
      returns (cleared: map<nat, H.Option<Obj>>)
    requires t.Valid()
    modifies t`head, t`entries, t`contents
    ensures t.Valid() && SubMap(t.contents, old(t.contents))
    ensures forall k :: k in t.contents <==> k in old(t.contents) && LinkStays(old(t.contents[k]), dangling, marked)
    ensures Cleared(cells, cleared, if dangling then {} else old(Leaving(t.contents, dangling, marked)))
  {
    hide t.Valid, LinkStays;
    cleared := cells;
    ghost var gone: set<nat> := {};
    if t.nonNull {
      for i := 0 to |t.head|
        invariant t.nonNull && t.Valid() && |t.head| == old(|t.head|)
        invariant forall b, e :: 0 <= b < i && e in t.head[b] ==> LinkStays(e.val, dangling, marked)
        invariant LinksSorted(old(t.contents), t.contents, gone, dangling, marked, cells, cleared)
      {
        cleared, gone := LinksOfChain(t, i, dangling, marked, cells, cleared, gone, old(t.contents));
      }
    }
    forall k | k in t.contents ensures LinkStays(t.contents[k], dangling, marked) {
      t.InSomeChain(k);
    }
    assert gone == old(Leaving(t.contents, dangling, marked));
  }

  /** The inner loop: one chain of the table. */
  method LinksOfChain(t: H.Table<Link>, i: nat, dangling: bool, marked: set<Obj>,
                      ghost cells: map<nat, H.Option<Obj>>, before: map<nat, H.Option<Obj>>,
                      ghost goneBefore: set<nat>, ghost m: map<nat, Link>)
      returns (cleared: map<nat, H.Option<Obj>>, ghost gone: set<nat>)
    requires t.nonNull && t.Valid() && i < |t.head|
    requires LinksSorted(m, t.contents, goneBefore, dangling, marked, cells, before)
    modifies t`head, t`entries, t`contents
    ensures t.Valid() && |t.head| == old(|t.head|)
    ensures forall b :: 0 <= b < |t.head| && b != i ==> t.head[b] == old(t.head[b])
    ensures forall e :: e in t.head[i] ==> LinkStays(e.val, dangling, marked)
    ensures LinksSorted(m, t.contents, gone, dangling, marked, cells, cleared)
  {
    hide H.Rep, LinkStays, LinksSorted;
    cleared, gone := before, goneBefore;
    var j := 0;
    while j < |t.head[i]|
      invariant t.Valid() && |t.head| == old(|t.head|) && j <= |t.head[i]|
      invariant forall b :: 0 <= b < |t.head| && b != i ==> t.head[b] == old(t.head[b])
      invariant forall l :: 0 <= l < j ==> LinkStays(t.head[i][l].val, dangling, marked)
      invariant LinksSorted(m, t.contents, gone, dangling, marked, cells, cleared)
      decreases |t.head[i]| - j
    {
      var e := t.head[i][j];
      t.InMap(i, j);
      if LinkStays(e.val, dangling, marked) {
        j := j + 1;
      } else {
        OneLinkLess(m, t.contents, gone, dangling, marked, cells, cleared, e.key);
        if !dangling {
          cleared := cleared[e.key := H.None];
        }
        t.Delete(i, j);
        gone := gone + {e.key};
      }
    }
  }

  // -----------------------------------------------------------------------------------
  // Finalization
  // -----------------------------------------------------------------------------------

  /** Every registered object exists, and has one entry. */
  ghost predicate ObjectsOk(m: map<nat, Fo>, g: Graph) {
    && (forall k :: k in m ==> m[k].obj in g)
    && (forall k, l :: k in m && l in m && k != l ==> m[k].obj != m[l].obj)
  }

  /** The entries of the queue's new part are those of `moved`, each once. */
  ghost predicate Enqueued(newest: seq<H.Entry<Fo>>, moved: map<nat, Fo>) {
    && H.Distinct(newest)
    && (forall e :: e in newest ==> e.key in moved && moved[e.key] == e.val)
    && (forall k :: k in moved ==> H.Entry(k, moved[k]) in newest)
  }

  predicate FoStays(f: Fo, reached: set<Obj>) {
    f.obj in reached
  }

  /** The queue has grown by the entries of `moved`. */
  ghost predicate QueueOk(queue: seq<H.Entry<Fo>>, rest: seq<H.Entry<Fo>>, moved: map<nat, Fo>) {
    && |rest| <= |queue| && queue[|queue| - |rest|..] == rest
    && Enqueued(queue[..|queue| - |rest|], moved)
  }

  lemma QueueGrows(queue: seq<H.Entry<Fo>>, rest: seq<H.Entry<Fo>>, moved: map<nat, Fo>, e: H.Entry<Fo>)
    requires QueueOk(queue, rest, moved) && e.key !in moved
    ensures QueueOk([e] + queue, rest, moved[e.key := e.val])
  {
    var before, z := queue[..|queue| - |rest|], [e] + queue;
    assert z[..|z| - |rest|] == [e] + before;
    assert z[|z| - |rest|..] == queue[|queue| - |rest|..];
    var after := [e] + before;
    assert forall x :: x in after <==> x == e || x in before;
  }

  /** What the second pass has done so far. */
  ghost predicate Sorted(m: map<nat, Fo>, left: map<nat, Fo>, moved: map<nat, Fo>, reached: set<Obj>, marked: set<Obj>) {
    && left.Keys !! moved.Keys && m == left + moved
    && (forall k :: k in moved ==> moved[k].obj !in reached)
    && marked == reached + (set k | k in moved :: moved[k].obj)
  }

  /** In a sorted state a registered object is marked only if the first pass has reached it. */
  lemma MarkedMeansReached(m: map<nat, Fo>, left: map<nat, Fo>, moved: map<nat, Fo>, reached: set<Obj>, marked: set<Obj>,
                           g: Graph, k: nat)
    requires Sorted(m, left, moved, reached, marked) && ObjectsOk(m, g) && k in left
    ensures m[k] == left[k] && (left[k].obj in marked <==> FoStays(left[k], reached))
  {
    forall l | l in moved ensures moved[l].obj != left[k].obj {
      assert m[l] == moved[l];
    }
  }

  lemma MoveOut(m: map<nat, Fo>, left: map<nat, Fo>, moved: map<nat, Fo>, reached: set<Obj>, marked: set<Obj>, k: nat)
    requires Sorted(m, left, moved, reached, marked) && k in left && left[k].obj !in marked
    ensures k !in moved
    ensures Sorted(m, left - {k}, moved[k := left[k]], reached, marked + {left[k].obj})
  {
    var moved' := moved[k := left[k]];
    assert (set l | l in moved' :: moved'[l].obj) == (set l | l in moved :: moved[l].obj) + {left[k].obj} by {
      assert forall l :: l in moved ==> moved'[l] == moved[l];
      assert k in moved' && moved'[k] == left[k];
    }
  }

  /** Entry `k` is the only one whose object is unmarked. */
  ghost predicate OnlyVictim(m: map<nat, Fo>, k: nat, entry: set<Obj>) {
    k in m && m[k].obj !in entry && forall l :: l in m && l != k ==> m[l].obj in entry
  }

  class Finalizer {
    const gc: Collector
    const fo: H.Table<Fo>
    const shortLinks: H.Table<Link>
    const longLinks: H.Table<Link>
    /** Objects whose finalizers are to be run. */
    var queue: seq<H.Entry<Fo>>
    /** What is stored at the addresses of links; these pointers are hidden from the marker. */
    var cells: map<nat, H.Option<Obj>>

    ghost predicate Valid()
      reads this, fo, shortLinks, longLinks
    {
      && fo.Valid() && shortLinks.Valid() && longLinks.Valid() && shortLinks != longLinks
    }

    constructor (gc: Collector)
      ensures Valid() && this.gc == gc && queue == [] && cells == map[]
      ensures fresh(fo) && fresh(shortLinks) && fresh(longLinks)
      ensures fo.contents == map[] && shortLinks.contents == map[] && longLinks.contents == map[]
    {
      this.gc := gc;
      var f := new H.Table<Fo>();
      var s := new H.Table<Link>();
      var l := new H.Table<Link>();
      fo, shortLinks, longLinks := f, s, l;
      queue, cells := [], map[];
    }

    /** The first pass: the mark procedures of all unmarked registered objects are run. */
    method FirstPass() returns (ghost overflowed: set<Obj>)
      requires fo.Valid() && Settled(gc) && ObjectsOk(fo.contents, gc.fields)
      modifies gc`marked, gc`stack, gc`markState, gc`stackTooSmall, gc`objectsAreMarked, gc`scanPtr, gc`stackSize, gc`aborted, gc`calls
      ensures Settled(gc) && !gc.aborted && old(gc.marked) <= gc.marked
      ensures old(StackSuffices(gc)) ==> overflowed == {}
      ensures forall k :: OnlyVictim(fo.contents, k, old(gc.marked)) && old(Overwhelms(gc, fo.contents[k])) ==>
                fo.contents[k].obj in overflowed
      ensures MarkedFrom(gc.fields, old(gc.marked), old(Victims(fo.contents, fo.contents.Keys, gc.marked)), overflowed, gc.marked)
    {
      hide PassedOver, MarkedFrom, Settled, StackSuffices, Overwhelms, fo.Valid;
      ghost var entry := gc.marked;
      ghost var keys: set<nat> := {};
      ghost var enough := StackSuffices(gc);
      ghost var doomed := set k | k in fo.contents && OnlyVictim(fo.contents, k, entry) && Overwhelms(gc, fo.contents[k]);
      overflowed := {};
      ClosedMarks(gc);
      PassStarts(gc.fields, fo.contents, entry);
      var size := if fo.nonNull then |fo.head| else 0;
      for i := 0 to size
        invariant Settled(gc) && entry <= gc.marked
        invariant PassedOver(gc.fields, fo.contents, keys, entry, overflowed, gc.marked)
        invariant forall b, e :: 0 <= b < i && e in fo.head[b] ==> e.key in keys
        invariant keys <= fo.contents.Keys
        invariant AsForeseen(enough, doomed, keys, entry, overflowed)
      {
        overflowed, keys := PassChain(i, overflowed, keys, entry, enough, doomed);
      }
      forall k | k in fo.contents ensures k in keys {
        fo.InSomeChain(k);
      }
      assert keys == fo.contents.Keys;
      ClosedMarks(gc);
      PassEnds(gc.fields, fo.contents, entry, overflowed, gc.marked);
      NotAborted(gc);
    }

    /**
     What the first pass does to the mark stack: never an overflow if there is room enough at the
     start, and always one for the only victim if its own pointers are too many.
     */
    ghost predicate AsForeseen(enough: bool, doomed: set<nat>, keys: set<nat>, entry: set<Obj>, overflowed: set<Obj>)
      reads fo`contents, gc`hdrs, gc`fields, gc`marked, gc`stackSize
    {
      && (enough ==> overflowed == {} && StackSuffices(gc))
      && (forall k :: k in doomed ==> OnlyVictim(fo.contents, k, entry))
      && (forall k :: k in doomed && k in keys ==> fo.contents[k].obj in overflowed)
      && (forall k :: k in doomed && k !in keys ==> gc.marked == entry && Overwhelms(gc, fo.contents[k]))
    }

    /** The inner loop of the first pass: one chain of the table. */
    method PassChain(i: nat, ghost overflowed0: set<Obj>, ghost keys0: set<nat>, ghost entry: set<Obj>,
                     ghost enough: bool, ghost doomed: set<nat>)
        returns (ghost overflowed: set<Obj>, ghost keys: set<nat>)
      requires Settled(gc) && entry <= gc.marked
      requires fo.Valid() && fo.nonNull && i < |fo.head| && ObjectsOk(fo.contents, gc.fields)
      requires PassedOver(gc.fields, fo.contents, keys0, entry, overflowed0, gc.marked)
      requires AsForeseen(enough, doomed, keys0, entry, overflowed0)
      modifies gc`marked, gc`stack, gc`markState, gc`stackTooSmall, gc`objectsAreMarked, gc`scanPtr, gc`stackSize, gc`aborted, gc`calls
      ensures Settled(gc) && entry <= gc.marked
      ensures PassedOver(gc.fields, fo.contents, keys, entry, overflowed, gc.marked)
      ensures keys0 <= keys <= keys0 + fo.contents.Keys && forall e :: e in fo.head[i] ==> e.key in keys
      ensures AsForeseen(enough, doomed, keys, entry, overflowed)
    {
      hide PassedOver, Settled, Starts, StackSuffices, Overwhelms, fo.Valid;
      overflowed, keys := overflowed0, keys0;
      for j := 0 to |fo.head[i]|
        invariant Settled(gc) && entry <= gc.marked
        invariant PassedOver(gc.fields, fo.contents, keys, entry, overflowed, gc.marked)
        invariant keys0 <= keys <= keys0 + fo.contents.Keys && forall l :: 0 <= l < j ==> fo.head[i][l].key in keys
        invariant AsForeseen(enough, doomed, keys, entry, overflowed)
      {
        var e := fo.head[i][j];
        fo.InMap(i, j);
        if e.val.obj !in gc.marked {
          ghost var before := gc.marked;
          ghost var overflow := MarkFo(gc, e.val);
          ghost var more := if overflow then {e.val.obj} else {};
          PassMarks(gc.fields, fo.contents, keys, e.key, entry, overflowed, before, more, gc.marked);
          overflowed := overflowed + more;
        } else {
          ClosedMarks(gc);
          PassSkips(gc.fields, fo.contents, keys, e.key, entry, overflowed, gc.marked);
        }
        keys := keys + {e.key};
      }
    }

    /** The second pass: registered objects that are still unmarked are marked, and move to the queue. */
    method SecondPass() returns (ghost moved: map<nat, Fo>)
      requires fo.Valid() && ObjectsOk(fo.contents, gc.fields)
      modifies fo`head, fo`entries, fo`contents, gc`marked, this`queue
      ensures fo.Valid() && QueueOk(queue, old(queue), moved)
      ensures Sorted(old(fo.contents), fo.contents, moved, old(gc.marked), gc.marked)
      ensures forall k :: k in fo.contents ==> FoStays(fo.contents[k], old(gc.marked))
    {
      hide Sorted, QueueOk, ObjectsOk, fo.Valid;
      ghost var m, reached := fo.contents, gc.marked;
      moved := map[];
      SortingStarts(m, reached, queue);
      if fo.nonNull {
        for i := 0 to |fo.head|
          invariant fo.nonNull && fo.Valid() && |fo.head| == old(|fo.head|)
          invariant QueueOk(queue, old(queue), moved) && Sorted(m, fo.contents, moved, reached, gc.marked)
          invariant forall b, e :: 0 <= b < i && e in fo.head[b] ==> FoStays(e.val, reached)
        {
          queue, moved := SortChain(fo, gc, i, queue, m, moved, reached, old(queue));
        }
      }
      forall k | k in fo.contents ensures FoStays(fo.contents[k], reached) {
        fo.InSomeChain(k);
      }
    }

    /** The registered objects that are unmarked. */
    ghost function AllVictims(): set<Fo>
      reads fo`contents, gc`marked
    {
      Victims(fo.contents, fo.contents.Keys, gc.marked)
    }

    /**
     `GC_finalize`, with ordinary finalization order. `reached` is what is marked after the first
     pass, `moved` what goes from the table to the queue; neither depends on the order of the chains.
     */
    method Finalize() returns (ghost reached: set<Obj>, ghost moved: map<nat, Fo>, ghost overflowed: set<Obj>)
      requires Valid() && Settled(gc) && ObjectsOk(fo.contents, gc.fields)
      modifies gc`marked, gc`stack, gc`markState, gc`stackTooSmall, gc`objectsAreMarked, gc`scanPtr, gc`stackSize, gc`aborted, gc`calls
      modifies fo`head, fo`entries, fo`contents, shortLinks`head, shortLinks`entries, shortLinks`contents
      modifies longLinks`head, longLinks`entries, longLinks`contents, this`queue, this`cells
      ensures Valid() && !gc.aborted
      ensures MarkedFrom(gc.fields, old(gc.marked), old(AllVictims()), overflowed, reached)
      ensures forall k :: k in moved <==> k in old(fo.contents) && LeftUnmarked(old(AllVictims()), reached, old(fo.contents[k]))
      ensures old(StackSuffices(gc)) ==> overflowed == {}
      ensures old(StackSuffices(gc)) ==> forall k :: k in moved <==>
                k in old(fo.contents) && OughtToBeEnqueued(gc.fields, old(AllVictims()), old(fo.contents[k]))
      ensures (forall k :: k in old(fo.contents) ==>
                 (k in moved <==> OughtToBeEnqueued(gc.fields, old(AllVictims()), old(fo.contents[k]))))
              <==> (forall o :: o in overflowed ==> Reaches(gc.fields, Starts(gc.fields, old(AllVictims())), o))
      ensures forall k :: OnlyVictim(old(fo.contents), k, old(gc.marked)) && old(Overwhelms(gc, fo.contents[k])) ==>
                old(fo.contents[k]).obj in overflowed
      ensures Sorted(old(fo.contents), fo.contents, moved, reached, gc.marked)
      ensures QueueOk(queue, old(queue), moved)
      ensures QueueIsSafe(gc.fields, old(AllVictims()), reached, gc.marked) <==>
              NullProcsLeadNowhere(gc.fields, old(AllVictims()), reached, gc.marked)
      ensures SubMap(shortLinks.contents, old(shortLinks.contents)) && SubMap(longLinks.contents, old(longLinks.contents))
      ensures forall k :: k in shortLinks.contents <==>
                k in old(shortLinks.contents) &&
                LinkStays(old(shortLinks.contents[k]), false, old(gc.marked)) && LinkStays(old(shortLinks.contents[k]), true, gc.marked)
      ensures forall k :: k in longLinks.contents <==>
                k in old(longLinks.contents) &&
                LinkStays(old(longLinks.contents[k]), false, gc.marked) && LinkStays(old(longLinks.contents[k]), true, gc.marked)
      ensures Cleared(old(cells), cells,
                      old(Leaving(shortLinks.contents, false, gc.marked)) + Leaving(old(longLinks.contents), false, gc.marked))
    {
      hide Settled, fo.Valid, ObjectsOk, MarkedFrom, Sorted, QueueOk, Cleared, LinkStays, StackSuffices, Overwhelms;
      hide OughtToBeEnqueued, LeftUnmarked, OnlyVictim, QueueIsSafe, NullProcsLeadNowhere;
      ghost var m, cells0 := fo.contents, cells;
      cells := MakeLinksDisappear(shortLinks, false, gc.marked, cells);
      ghost var cells1 := cells;
      overflowed := FirstPass();
      reached := gc.marked;
      moved := SecondPass();
      MovedExactly(m, fo.contents, moved, old(gc.marked), reached, gc.marked);
      MovesExactly(gc.fields, m, moved, old(gc.marked), overflowed, reached);
      SortedIsFinal(m, fo.contents, moved, old(gc.marked), reached, gc.marked);
      WholeQueueIsKeptAlive(gc.fields, old(gc.marked), old(AllVictims()), overflowed, reached, gc.marked);
      cells := MakeLinksDisappear(shortLinks, true, gc.marked, cells);
      NothingCleared(cells1, cells);
      cells1 := cells;
      cells := MakeLinksDisappear(longLinks, false, gc.marked, cells);
      ClearedTwice(cells0, cells1, cells, old(Leaving(shortLinks.contents, false, gc.marked)),
                   Leaving(old(longLinks.contents), false, gc.marked));
      cells1 := cells;
      cells := MakeLinksDisappear(longLinks, true, gc.marked, cells);
      NothingCleared(cells1, cells);
    }
  }

  lemma NothingCleared(a: map<nat, H.Option<Obj>>, b: map<nat, H.Option<Obj>>)
    requires Cleared(a, b, {})
    ensures a == b
  {
  }

  lemma ClearedTwice(a: map<nat, H.Option<Obj>>, b: map<nat, H.Option<Obj>>, c: map<nat, H.Option<Obj>>, x: set<nat>, y: set<nat>)
    requires Cleared(a, b, x) && Cleared(b, c, y)
    ensures Cleared(a, c, x + y)
  {
  }

  /** What has moved are exactly the victims that the first pass has not reached. */
  lemma MovedExactly(m: map<nat, Fo>, left: map<nat, Fo>, moved: map<nat, Fo>, entry: set<Obj>, reached: set<Obj>, marked: set<Obj>)
    requires Sorted(m, left, moved, reached, marked) && entry <= reached
    requires forall k :: k in left ==> FoStays(left[k], reached)
    ensures forall k :: k in moved <==> k in m && LeftUnmarked(Victims(m, m.Keys, entry), reached, m[k])
  {
    forall k ensures k in moved <==> k in m && LeftUnmarked(Victims(m, m.Keys, entry), reached, m[k]) {
      if k in m {
        assert k in left || k in moved;
        if k in moved {
          assert m[k] == moved[k];
        } else {
          assert m[k] == left[k];
        }
      }
    }
  }

  lemma SortedIsFinal(m: map<nat, Fo>, left: map<nat, Fo>, moved: map<nat, Fo>, entry: set<Obj>, reached: set<Obj>, marked: set<Obj>)
    requires Sorted(m, left, moved, reached, marked)
    requires forall k :: k in moved <==> k in m && LeftUnmarked(Victims(m, m.Keys, entry), reached, m[k])
    ensures FinalMarks(Victims(m, m.Keys, entry), reached, marked)
  {
    var victims := Victims(m, m.Keys, entry);
    forall k | k in moved ensures LeftUnmarked(victims, reached, moved[k]) {
      assert m[k] == moved[k];
    }
    forall f | LeftUnmarked(victims, reached, f) ensures f.obj in marked {
      var k :| k in m && m[k] == f;
      assert moved[k] == f;
    }
  }

  /** The same, said of the entries that move to the queue. */
  lemma MovesExactly(g: Graph, m: map<nat, Fo>, moved: map<nat, Fo>, entry: set<Obj>, overflowed: set<Obj>, marked: set<Obj>)
    requires MarkedFrom(g, entry, Victims(m, m.Keys, entry), overflowed, marked)
    requires forall k :: k in moved <==> k in m && LeftUnmarked(Victims(m, m.Keys, entry), marked, m[k])
    ensures (forall k :: k in m ==> (k in moved <==> OughtToBeEnqueued(g, Victims(m, m.Keys, entry), m[k])))
       <==> (forall o :: o in overflowed ==> Reaches(g, Starts(g, Victims(m, m.Keys, entry)), o))
  {
    hide MarkedFrom, Reaches, Starts;
    var victims := Victims(m, m.Keys, entry);
    EnqueuesExactly(g, entry, victims, overflowed, marked);
    forall f | f in victims ensures exists k :: k in m && m[k] == f {
    }
    if forall k :: k in m ==> (k in moved <==> OughtToBeEnqueued(g, victims, m[k])) {
      assert forall f :: LeftUnmarked(victims, marked, f) <==> OughtToBeEnqueued(g, victims, f);
    }
  }

  /** The inner loop of the second pass: one chain of the table. */
  method SortChain(fo: H.Table<Fo>, gc: Collector, i: nat, q: seq<H.Entry<Fo>>, ghost m: map<nat, Fo>,
                   ghost moved0: map<nat, Fo>, ghost reached: set<Obj>, ghost rest: seq<H.Entry<Fo>>)
      returns (queue: seq<H.Entry<Fo>>, ghost moved: map<nat, Fo>)
    requires fo.nonNull && fo.Valid() && i < |fo.head| && ObjectsOk(m, gc.fields)
    requires QueueOk(q, rest, moved0) && Sorted(m, fo.contents, moved0, reached, gc.marked)
    modifies fo`head, fo`entries, fo`contents, gc`marked
    ensures fo.Valid() && |fo.head| == old(|fo.head|)
    ensures forall b :: 0 <= b < |fo.head| && b != i ==> fo.head[b] == old(fo.head[b])
    ensures forall e :: e in fo.head[i] ==> FoStays(e.val, reached)
    ensures QueueOk(queue, rest, moved) && Sorted(m, fo.contents, moved, reached, gc.marked)
  {
    hide Sorted, QueueOk, ObjectsOk, fo.Valid, FoStays;
    queue, moved := q, moved0;
    var j := 0;
    while j < |fo.head[i]|
      invariant fo.Valid() && |fo.head| == old(|fo.head|) && j <= |fo.head[i]|
      invariant forall b :: 0 <= b < |fo.head| && b != i ==> fo.head[b] == old(fo.head[b])
      invariant forall l :: 0 <= l < j ==> FoStays(fo.head[i][l].val, reached)
      invariant QueueOk(queue, rest, moved) && Sorted(m, fo.contents, moved, reached, gc.marked)
      decreases |fo.head[i]| - j
    {
      var e := fo.head[i][j];
      fo.InMap(i, j);
      MarkedMeansReached(m, fo.contents, moved, reached, gc.marked, gc.fields, e.key);
      if e.val.obj !in gc.marked {
        MoveOut(m, fo.contents, moved, reached, gc.marked, e.key);
        QueueGrows(queue, rest, moved, e);
        gc.marked := gc.marked + {e.val.obj};
        fo.Delete(i, j);
        queue := [e] + queue;
        moved := moved[e.key := e.val];
      } else {
        j := j + 1;
      }
    }
  }

  lemma NotAborted(gc: Collector)
    requires Settled(gc)
    ensures !gc.aborted
  {
  }

  lemma ClosedMarks(gc: Collector)
    requires Settled(gc)
    ensures Closed(gc.fields, gc.marked)
  {
  }

  lemma SortingStarts(m: map<nat, Fo>, reached: set<Obj>, queue: seq<H.Entry<Fo>>)
    ensures Sorted(m, m, map[], reached, reached) && QueueOk(queue, queue, map[])
  {
    assert m == m + map[];
  }

  // -----------------------------------------------------------------------------------
  // An overflow can cost an object its finalizer
  // -----------------------------------------------------------------------------------

  /** `n` different objects, in blocks 10, 11, and so on. */
  function Kids(n: nat): seq<Obj> {
    if n == 0 then [] else Kids(n - 1) + [Obj(10 + n / 256, n % 256)]
  }

  ghost function KidSet(n: nat): set<Obj> {
    set q | q in Kids(n)
  }

  lemma {:induction false} KidsAreMany(n: nat)
    ensures |KidSet(n)| == n
    ensures forall q :: q in Kids(n) ==> 10 <= q.blk <= 10 + n / 256 && q.slot < 256
    ensures forall q :: q in Kids(n) ==> q.blk * 256 + q.slot <= n + 2560
  {
    if n > 0 {
      KidsAreMany(n - 1);
      var last := Obj(10 + n / 256, n % 256);
      assert forall q :: q in Kids(n) <==> q in Kids(n - 1) || q == last;
      assert KidSet(n) == KidSet(n - 1) + {last};
      assert last.blk * 256 + last.slot == n + 2560;
    }
  }

  /** One large object of nine pages, and `k` blocks of 256 small objects each. */
  function WideHdrs(k: nat): map<nat, Hdr> {
    if k == 0 then map[1 := Hdr(1, 9, Normal)] else WideHdrs(k - 1)[9 + k := Hdr(256, 1, Normal)]
  }

  lemma {:induction false} WideHdrsAre(k: nat)
    ensures forall b :: b in WideHdrs(k) <==> b == 1 || 10 <= b <= 9 + k
    ensures forall b :: b in WideHdrs(k) ==> WideHdrs(k)[b] == if b == 1 then Hdr(1, 9, Normal) else Hdr(256, 1, Normal)
  {
    if k > 0 {
      WideHdrsAre(k - 1);
    }
  }

  predicate IsWide(k: nat, b: nat, i: nat) {
    (b == 1 && i == 0) || (10 <= b <= 9 + k && i < 256)
  }

  /** Object `Obj(1, 0)` points to the objects in `kids`, and no other object has pointers. */
  function WideFields(k: nat, kids: seq<Obj>): Graph {
    map b: nat, i: nat | b <= 9 + k && i < 256 && IsWide(k, b, i) :: Obj(b, i) := if b == 1 then kids else []
  }

  lemma WideFieldsAre(k: nat, kids: seq<Obj>)
    ensures forall o :: o in WideFields(k, kids) <==> IsWide(k, o.blk, o.slot)
    ensures forall o :: o in WideFields(k, kids) ==> WideFields(k, kids)[o] == if o == Obj(1, 0) then kids else []
  {
  }

  lemma WideIsOk(k: nat, kids: seq<Obj>)
    requires forall q :: q in kids ==> 10 <= q.blk <= 9 + k && q.slot < 256
    ensures BlocksOk(WideHdrs(k), k + 10, WideFields(k, kids)) && PointersOk(WideHdrs(k), WideFields(k, kids), [], [])
    ensures Obj(1, 0) in WideFields(k, kids)
    ensures ToBePushed(WideHdrs(k), {}, Obj(1, 0), kids) == set q | q in kids
  {
    hide WideHdrs, WideFields;
    WideHdrsAre(k);
    WideFieldsAre(k, kids);
  }

  /** A collector with this heap, in which nothing is marked. */
  method WideCollector(k: nat, kids: seq<Obj>) returns (gc: Collector)
    requires BlocksOk(WideHdrs(k), k + 10, WideFields(k, kids)) && PointersOk(WideHdrs(k), WideFields(k, kids), [], [])
    ensures fresh(gc) && Settled(gc) && gc.marked == {} && gc.stackSize == INITIAL_MARK_STACK_SIZE
    ensures gc.hdrs == WideHdrs(k) && gc.fields == WideFields(k, kids)
  {
    hide *;
    gc := new Collector(0, false, false, 0);
    gc.hdrs, gc.heapTop, gc.fields := WideHdrs(k), k + 10, WideFields(k, kids);
    gc.segs, gc.stackRoots, gc.dirty, gc.dirtySegs := [], [], {}, {};
    gc.marked, gc.markState, gc.scanPtr, gc.stack := {}, MarkState.None, 0, [];
    gc.stackSize := INITIAL_MARK_STACK_SIZE;
    FreshIsSettled(gc);
  }

  lemma FreshIsSettled(gc: Collector)
    requires BlocksOk(gc.hdrs, gc.heapTop, gc.fields) && PointersOk(gc.hdrs, gc.fields, gc.segs, gc.stackRoots)
    requires gc.segs == [] && gc.stackRoots == [] && gc.dirty == {} && gc.dirtySegs == {} && gc.marked == {}
    requires gc.markState == MarkState.None && gc.scanPtr == 0 && gc.stack == []
    requires gc.stackSize == INITIAL_MARK_STACK_SIZE && !gc.aborted
    ensures Settled(gc)
  {
    assert gc.RootTargets() == {};
  }

  /** What has no pointers leads nowhere. */
  lemma KidsLeadNowhere(k: nat, n: nat)
    requires Obj(1, 0) in WideFields(k, Kids(n))
    ensures var f := Fo(Obj(1, 0), IgnoreSelfProc, 0); OughtToBeEnqueued(WideFields(k, Kids(n)), {f}, f)
  {
    var f, g := Fo(Obj(1, 0), IgnoreSelfProc, 0), WideFields(k, Kids(n));
    KidsAreMany(n);
    WideFieldsAre(k, Kids(n));
    hide WideFields;
    assert Starts(g, {f}) <= KidSet(n);
    assert Closed(g, Starts(g, {f}));
    ClosedContainsReachable(g, Starts(g, {f}), Starts(g, {f}));
  }

  /** The table has just this entry, and the client memory for it. */
  method RegisterOne(t: H.Table<Fo>, key: nat, f: Fo)
    requires t.Valid() && t.contents == map[]
    modifies t`head, t`entries, t`contents, t`nonNull, t`logSize
    ensures t.Valid() && t.contents == map[key := f]
  {
    var env := H.Environment(false, true, true, true, [], {}, {}, {});
    assert t.Before(env) == map[] && t.AtEntry(env, key, true) == map[];
    var _, _, _ := t.RegisterFinalizer(key, H.Some(f), true, env);
  }

  /** With nothing else registered, an object whose pointers overwhelm the mark stack stays in the table. */
  method FinalizeOne(z: Finalizer, key: nat)
    requires z.Valid() && Settled(z.gc) && ObjectsOk(z.fo.contents, z.gc.fields)
    requires OnlyVictim(z.fo.contents, key, z.gc.marked) && Overwhelms(z.gc, z.fo.contents[key])
    modifies z.gc`marked, z.gc`stack, z.gc`markState, z.gc`stackTooSmall, z.gc`objectsAreMarked, z.gc`scanPtr,
             z.gc`stackSize, z.gc`aborted, z.gc`calls
    modifies z.fo`head, z.fo`entries, z.fo`contents, z.shortLinks`head, z.shortLinks`entries, z.shortLinks`contents
    modifies z.longLinks`head, z.longLinks`entries, z.longLinks`contents, z`queue, z`cells
    ensures z.queue == old(z.queue) && z.fo.contents == old(z.fo.contents) && z.fo.contents[key].obj in z.gc.marked
  {
    hide *;
    hide z.fo.Valid, z.Valid, z.AllVictims;
    ghost var m, entry := z.fo.contents, z.gc.marked;
    ghost var victims := z.AllVictims();
    VictimsAreVictims(z);
    ghost var reached, moved, overflowed := z.Finalize();
    NothingMoves(z.gc.fields, m, z.fo.contents, moved, entry, overflowed, reached, z.gc.marked, key);
    QueueStays(z.queue, old(z.queue), moved);
  }

  lemma VictimsAreVictims(z: Finalizer)
    ensures z.AllVictims() == Victims(z.fo.contents, z.fo.contents.Keys, z.gc.marked)
  {
  }

  lemma NothingMoves(g: Graph, m: map<nat, Fo>, left: map<nat, Fo>, moved: map<nat, Fo>, entry: set<Obj>,
                     overflowed: set<Obj>, reached: set<Obj>, marked: set<Obj>, key: nat)
    requires OnlyVictim(m, key, entry) && m[key].obj in overflowed
    requires MarkedFrom(g, entry, Victims(m, m.Keys, entry), overflowed, reached)
    requires forall k :: k in moved <==> k in m && LeftUnmarked(Victims(m, m.Keys, entry), reached, m[k])
    requires Sorted(m, left, moved, reached, marked)
    ensures moved == map[] && left == m && key in left && left[key].obj in marked
  {
    hide Reaches, Starts;
    ReachesSelf(g, entry + Starts(g, Victims(m, m.Keys, entry)) + overflowed, m[key].obj);
    assert m[key].obj in reached;
    assert forall k :: k in m && k != key ==> m[k] !in Victims(m, m.Keys, entry);
    assert moved.Keys == {};
  }

  lemma QueueStays(queue: seq<H.Entry<Fo>>, rest: seq<H.Entry<Fo>>, moved: map<nat, Fo>)
    requires QueueOk(queue, rest, moved)
    ensures moved == map[] ==> queue == rest
  {
    var newest := queue[..|queue| - |rest|];
    assert queue == newest + rest;
    if queue != rest {
      assert newest[0] in newest;
    }
  }

  /**
   An unreachable object with a finalizer, not on any cycle of pointers: nothing is marked, it
   alone is registered, and it ought to be enqueued.  It has more pointers than the mark stack
   has entries; `GC_finalize` marks it, leaves it in the table, and enqueues nothing.
   */
  method AFinalizerCanBeLost() returns (z: Finalizer, f: Fo, ghost before: set<Obj>)
    ensures before == {} && OughtToBeEnqueued(z.gc.fields, Victims(z.fo.contents, z.fo.contents.Keys, before), f)
    ensures z.queue == [] && z.fo.contents == map[f.obj.blk * 4096 := f] && f.obj in z.gc.marked
  {
    hide WideFields, WideHdrs, BlocksOk, PointersOk, Settled, Starts, OughtToBeEnqueued, ToBePushed, Kids, Victims;
    hide Overwhelms, OnlyVictim, z.fo.Valid;
    var n: nat := INITIAL_MARK_STACK_SIZE + 1;
    var k: nat := 20;
    KidsAreMany(n);
    WideIsOk(k, Kids(n));
    WideFieldsAre(k, Kids(n));
    KidsLeadNowhere(k, n);
    var gc := WideCollector(k, Kids(n));
    f := Fo(Obj(1, 0), IgnoreSelfProc, 0);
    z := new Finalizer(gc);
    RegisterOne(z.fo, 4096, f);
    before := gc.marked;
    OneVictim(z.fo.contents, 4096, f);
    FarTooMany(gc, k, n, f);
    FinalizeOne(z, 4096);
  }

  lemma OneVictim(m: map<nat, Fo>, key: nat, f: Fo)
    requires m == map[key := f]
    ensures Victims(m, m.Keys, {}) == {f} && OnlyVictim(m, key, {})
  {
    assert key in m.Keys && m[key] == f;
  }

  lemma FarTooMany(gc: Collector, k: nat, n: nat, f: Fo)
    requires gc.hdrs == WideHdrs(k) && gc.fields == WideFields(k, Kids(n)) && gc.marked == {} && gc.stackSize < n
    requires Obj(1, 0) in gc.fields && gc.fields[Obj(1, 0)] == Kids(n)
    requires ToBePushed(gc.hdrs, {}, Obj(1, 0), Kids(n)) == KidSet(n) && f == Fo(Obj(1, 0), IgnoreSelfProc, 0)
    ensures Overwhelms(gc, f)
  {
    hide ToBePushed, WideFields, WideHdrs, Kids, KidSet;
    KidsAreMany(n);
  }

  // -----------------------------------------------------------------------------------
  // An enqueued object can lose what it points to
  // -----------------------------------------------------------------------------------

  const OWNER: Obj := Obj(1, 0)
  const PART: Obj := Obj(2, 0)

  /** Two objects of a page each, the first of which points to the second. */
  function PairHdrs(): map<nat, Hdr> {
    map[1 := Hdr(1, 1, Normal), 2 := Hdr(1, 1, Normal)]
  }

  function PairFields(): Graph {
    map[OWNER := [PART], PART := []]
  }

  method PairCollector() returns (gc: Collector)
    ensures fresh(gc) && Settled(gc) && StackSuffices(gc) && gc.marked == {} && gc.fields == PairFields()
  {
    hide *;
    gc := new Collector(0, false, false, 0);
    gc.hdrs, gc.heapTop, gc.fields := PairHdrs(), 3, PairFields();
    gc.segs, gc.stackRoots, gc.dirty, gc.dirtySegs := [], [], {}, {};
    gc.marked, gc.markState, gc.scanPtr, gc.stack := {}, MarkState.None, 0, [];
    gc.stackSize := INITIAL_MARK_STACK_SIZE;
    PairIsOk();
    FreshIsSettled(gc);
    PairSuffices(gc);
  }

  lemma PairIsOk()
    ensures BlocksOk(PairHdrs(), 3, PairFields()) && PointersOk(PairHdrs(), PairFields(), [], [])
  {
    var hdrs, g := PairHdrs(), PairFields();
    assert forall b :: b in hdrs <==> b == 1 || b == 2;
    assert forall o :: o in g <==> o == OWNER || o == PART;
    assert g[OWNER] == [PART] && g[PART] == [] && hdrs[1] == Hdr(1, 1, Normal) == hdrs[2];
    hide PairHdrs, PairFields;
  }

  lemma PairSuffices(gc: Collector)
    requires gc.hdrs == PairHdrs() && gc.fields == PairFields() && gc.marked == {}
    requires !gc.parallel && gc.stackSize == INITIAL_MARK_STACK_SIZE
    ensures StackSuffices(gc)
  {
    assert ToBeScanned(false, PairHdrs(), PairFields(), {}) == {(OWNER, 0), (PART, 0)};
  }

  /** The first object of the pair is registered with the null procedure, and finalized. */
  method FinalizeOwner(z: Finalizer, f: Fo)
    requires z.Valid() && Settled(z.gc) && StackSuffices(z.gc) && z.gc.marked == {} && z.gc.fields == PairFields()
    requires f == Fo(OWNER, NullProc, 0) && z.fo.contents == map[4096 := f] && z.queue == []
    modifies z.gc`marked, z.gc`stack, z.gc`markState, z.gc`stackTooSmall, z.gc`objectsAreMarked, z.gc`scanPtr,
             z.gc`stackSize, z.gc`aborted, z.gc`calls
    modifies z.fo`head, z.fo`entries, z.fo`contents, z.shortLinks`head, z.shortLinks`entries, z.shortLinks`contents
    modifies z.longLinks`head, z.longLinks`entries, z.longLinks`contents, z`queue, z`cells
    ensures z.queue == [H.Entry(4096, f)] && PART !in z.gc.marked && Reaches(PairFields(), {OWNER}, PART)
  {
    hide *;
    hide z.fo.Valid, z.Valid, z.AllVictims;
    ghost var m := z.fo.contents;
    PairObjectsOk(m, f);
    VictimsAreVictims(z);
    OneVictim(m, 4096, f);
    ghost var reached, moved, _ := z.Finalize();
    OnlyOwnerMoves(m, z.fo.contents, moved, reached, z.gc.marked, f);
    QueueOfOne(z.queue, 4096, f, moved);
  }

  /**
   An object registered with a procedure that looks at no pointers is enqueued, since nothing leads
   to it. What it points to is not marked: it will be reclaimed before the finalizer is run.
   */
  method AQueuedObjectCanLoseItsParts() returns (z: Finalizer, f: Fo)
    ensures f.proc == NullProc && z.queue == [H.Entry(4096, f)]
    ensures Reaches(z.gc.fields, {f.obj}, PART) && PART !in z.gc.marked
  {
    hide Settled, StackSuffices, Reaches, PairFields, z.fo.Valid;
    var gc := PairCollector();
    f := Fo(OWNER, NullProc, 0);
    z := new Finalizer(gc);
    RegisterOne(z.fo, 4096, f);
    FinalizeOwner(z, f);
  }

  lemma PairObjectsOk(m: map<nat, Fo>, f: Fo)
    requires m == map[4096 := f] && f.obj == OWNER
    ensures ObjectsOk(m, PairFields())
  {
  }

  lemma OnlyOwnerMoves(m: map<nat, Fo>, left: map<nat, Fo>, moved: map<nat, Fo>, reached: set<Obj>, marked: set<Obj>, f: Fo)
    requires m == map[4096 := f] && f == Fo(OWNER, NullProc, 0) && Victims(m, m.Keys, {}) == {f}
    requires MarkedFrom(PairFields(), {}, {f}, {}, reached)
    requires forall k :: k in moved <==> k in m && LeftUnmarked({f}, reached, m[k])
    requires Sorted(m, left, moved, reached, marked)
    ensures moved == map[4096 := f] && PART !in marked && Reaches(PairFields(), {OWNER}, PART)
  {
    var g := PairFields();
    assert {} + Starts(g, {f}) + {} == {};
    ClosedContainsReachable(g, {}, {});
    assert reached == {};
    ReachesSelf(g, {OWNER}, OWNER);
    ReachesStep(g, {OWNER}, OWNER, PART);
    assert 4096 in m && m[4096] == f && 4096 in moved;
    assert moved[4096] == f;
  }

  lemma QueueOfOne(queue: seq<H.Entry<Fo>>, key: nat, f: Fo, moved: map<nat, Fo>)
    requires QueueOk(queue, [], moved) && moved == map[key := f]
    ensures queue == [H.Entry(key, f)]
  {
    var newest := queue[..|queue|];
    assert newest == queue;
    assert H.Entry(key, moved[key]) in newest;
    assert |newest| >= 2 ==> newest[0].key != newest[1].key;
    forall i | 0 <= i < |newest| ensures newest[i] == H.Entry(key, f) {
      assert newest[i] in newest;
    }
  }
}
