/**
 The marker: the six-state machine that `GC_mark_some` steps through, its bounded mark
 stack, and the drivers that start, abandon, resume and finish a mark phase while the
 client runs in between.
 */
module MarkPhase {
  import opened ObjectGraph
  import R = RangeScan

  datatype Kind = PtrFree | Normal | Uncollectable | AtomicUncollectable

  /** Header of a block in use: how many objects it holds, how many pages it spans. */
  datatype Hdr = Hdr(nobjs: nat, nblks: nat, kind: Kind) {
    /** The mark descriptor is nonzero: objects of the block may contain pointers. */
    predicate HasDescr() { kind == Normal || kind == Uncollectable }
    predicate IsUncollectable() { kind == Uncollectable || kind == AtomicUncollectable }
    /** Objects of the block have at most this many words. */
    function ObjWords(): nat { if nobjs == 0 then 0 else nblks * BLOCK_WORDS / nobjs }
  }

  /**
   A mark stack entry: the range of an object, or of one static root segment, or a part of such a
   range, with the pointers at positions `from` to `to` of it, in so many words at most.
   */
  datatype Entry = ObjRange(obj: Obj) | RootRange(seg: nat) | Part(whole: Entry, from: nat, to: nat, words: nat)

  datatype MarkState = None | PushRescuers | PushUncollectable | RootsPushed | PartiallyInvalid | Invalid

  const BLOCK_WORDS: nat := 512
  const INITIAL_MARK_STACK_SIZE: nat := 4096
  const MARK_STACK_DISCARDS: nat := INITIAL_MARK_STACK_SIZE / 8
  /** A block of 4096 bytes holds at most this many objects of one 16-byte granule. */
  const MAX_OBJS_PER_BLOCK: nat := 256

  /** A client stop function: it says "stop" when asked for the `after`-th time, or never. */
  datatype StopFunc = Never | After(after: nat) {
    predicate Says(calls: nat) { After? && after <= calls }
  }

  /** Blocks in use lie one above the other, and their slots are the objects. */
  ghost predicate BlocksOk(hdrs: map<nat, Hdr>, heapTop: nat, g: Graph) {
    && (forall b :: b in hdrs ==>
          1 <= b && b + hdrs[b].nblks <= heapTop && 1 <= hdrs[b].nblks
          && 1 <= hdrs[b].nobjs <= MAX_OBJS_PER_BLOCK)
    && (forall b, c :: b in hdrs && c in hdrs && b < c ==> b + hdrs[b].nblks <= c)
    && (forall o: Obj :: o in g <==> o.blk in hdrs && o.slot < hdrs[o.blk].nobjs)
  }

  /** Pointers lead to objects; blocks with a zero mark descriptor hold none. */
  ghost predicate PointersOk(hdrs: map<nat, Hdr>, g: Graph, segs: seq<seq<Obj>>, stackRoots: seq<Obj>) {
    && (forall p :: p in g ==> p.blk in hdrs && (!hdrs[p.blk].HasDescr() ==> g[p] == []))
    && (forall p, q :: p in g && q in g[p] ==> q in g)
    && (forall s, q :: 0 <= s < |segs| && q in segs[s] ==> q in g)
    && (forall q :: q in stackRoots ==> q in g)
  }

  /** The object or segment that an entry is the range of, or a part of the range. */
  function Whole(e: Entry): Entry {
    if e.Part? then e.whole else e
  }

  predicate EntryOk(g: Graph, segs: seq<seq<Obj>>, e: Entry) {
    match Whole(e)
    case ObjRange(o) => o in g
    case RootRange(i) => i < |segs|
    case Part(_, _, _, _) => false
  }

  function First(e: Entry): nat {
    if e.Part? then e.from else 0
  }

  /** The position after the last one of an entry, for a range with pointers `c`. */
  function Last(c: seq<Obj>, e: Entry): (n: nat)
    ensures First(e) <= n
  {
    var n := if e.Part? && e.to <= |c| then e.to else |c|;
    if n < First(e) then First(e) else n
  }

  /** The pointers among `c`, those of the whole range, that are in an entry. */
  function Cut(c: seq<Obj>, e: Entry): seq<Obj> {
    if Last(c, e) <= |c| then c[First(e)..Last(c, e)] else []
  }

  /** The pointers in the range that a stack entry describes. */
  function Contents(g: Graph, segs: seq<seq<Obj>>, e: Entry): seq<Obj>
    requires EntryOk(g, segs, e)
  {
    Cut(match Whole(e) case ObjRange(o) => g[o] case RootRange(i) => segs[i], e)
  }

  /** An entry for range `w`, which has pointers `c`, or for a part of it, is on the stack and leads to `q`. */
  ghost predicate Awaited(c: seq<Obj>, stack: seq<Entry>, w: Entry, q: Obj) {
    exists e :: e in stack && Whole(e) == w && q in Cut(c, e)
  }

  /** Marked objects with a pointer to an unmarked one that the mark stack does not lead to from there. */
  ghost function BadObjs(g: Graph, marked: set<Obj>, stack: seq<Entry>): set<Obj> {
    set o | o in marked && o in g && exists q :: q in g[o] && q !in marked && !Awaited(g[o], stack, ObjRange(o), q)
  }

  /** Root segments with a pointer to an unmarked object that the mark stack does not lead to from there. */
  ghost function BadSegs(segs: seq<seq<Obj>>, marked: set<Obj>, stack: seq<Entry>): set<nat> {
    set i: nat | i < |segs| && exists q :: q in segs[i] && q !in marked && !Awaited(segs[i], stack, RootRange(i), q)
  }

  /** With the whole range of an object on the stack, all it points to is awaited. */
  lemma WholeIsAwaited(c: seq<Obj>, stack: seq<Entry>, w: Entry)
    requires w in stack && !w.Part?
    ensures forall q :: q in c ==> Awaited(c, stack, w, q)
  {
    assert Cut(c, w) == c;
  }

  /** Object `q` is newly marked, and pushed if it points anywhere. */
  lemma PushedIsNotBad(g: Graph, segs: seq<seq<Obj>>, marked: set<Obj>, q: Obj, before: seq<Entry>, after: seq<Entry>)
    requires q in g && before <= after && (g[q] == [] || ObjRange(q) in after)
    ensures BadObjs(g, marked + {q}, after) <= BadObjs(g, marked, before)
    ensures BadSegs(segs, marked + {q}, after) <= BadSegs(segs, marked, before)
  {
    assert forall x :: x in before ==> x in after;
    if g[q] != [] {
      WholeIsAwaited(g[q], after, ObjRange(q));
    }
    forall o | o in BadObjs(g, marked + {q}, after) ensures o in BadObjs(g, marked, before) {
      var x :| x in g[o] && x !in marked + {q} && !Awaited(g[o], after, ObjRange(o), x);
      assert !Awaited(g[o], before, ObjRange(o), x);
    }
    forall i | i in BadSegs(segs, marked + {q}, after) ensures i in BadSegs(segs, marked, before) {
      var x :| x in segs[i] && x !in marked + {q} && !Awaited(segs[i], after, RootRange(i), x);
      assert !Awaited(segs[i], before, RootRange(i), x);
    }
  }

  /** Whatever the stack `before` leads to, the stack `after` leads to from the same place. */
  ghost predicate LeadsOn(g: Graph, segs: seq<seq<Obj>>, before: seq<Entry>, after: seq<Entry>) {
    && (forall o, q :: o in g && Awaited(g[o], before, ObjRange(o), q) ==> Awaited(g[o], after, ObjRange(o), q))
    && (forall i, q :: 0 <= i < |segs| && Awaited(segs[i], before, RootRange(i), q) ==> Awaited(segs[i], after, RootRange(i), q))
  }

  lemma LeadsOnBad(g: Graph, segs: seq<seq<Obj>>, marked: set<Obj>, before: seq<Entry>, after: seq<Entry>)
    requires LeadsOn(g, segs, before, after)
    ensures BadObjs(g, marked, after) <= BadObjs(g, marked, before) && BadSegs(segs, marked, after) <= BadSegs(segs, marked, before)
  {
    hide Awaited;
    forall o | o in BadObjs(g, marked, after) ensures o in BadObjs(g, marked, before) {
      var q :| q in g[o] && q !in marked && !Awaited(g[o], after, ObjRange(o), q);
      assert !Awaited(g[o], before, ObjRange(o), q);
    }
    forall i | i in BadSegs(segs, marked, after) ensures i in BadSegs(segs, marked, before) {
      var q :| q in segs[i] && q !in marked && !Awaited(segs[i], after, RootRange(i), q);
      assert !Awaited(segs[i], before, RootRange(i), q);
    }
  }

  lemma LeadsOnTrans(g: Graph, segs: seq<seq<Obj>>, a: seq<Entry>, b: seq<Entry>, c: seq<Entry>)
    requires LeadsOn(g, segs, a, b) && LeadsOn(g, segs, b, c)
    ensures LeadsOn(g, segs, a, c)
  {
  }

  /** Entry `e` in two parts, which may overlap, on top of the stack. */
  lemma PartsLeadOn(g: Graph, segs: seq<seq<Obj>>, stack: seq<Entry>, e: Entry, a: Entry, b: Entry)
    requires Parts(g, segs, e, a, b)
    ensures LeadsOn(g, segs, stack + [e], stack + [a, b])
  {
    var before, after := stack + [e], stack + [a, b];
    assert after[|stack|] == a && after[|stack| + 1] == b && forall x :: x in before <==> x in stack || x == e;
    assert forall x :: x in stack ==> x in after;
    forall o, q | o in g && Awaited(g[o], before, ObjRange(o), q) ensures Awaited(g[o], after, ObjRange(o), q) {
      var x :| x in before && Whole(x) == ObjRange(o) && q in Cut(g[o], x);
      assert x == e ==> q in Contents(g, segs, e);
    }
    forall i, q | 0 <= i < |segs| && Awaited(segs[i], before, RootRange(i), q) ensures Awaited(segs[i], after, RootRange(i), q) {
      var x :| x in before && Whole(x) == RootRange(i) && q in Cut(segs[i], x);
      assert x == e ==> q in Contents(g, segs, e);
    }
  }

  /** Entries `a` and `b` are of the same range as `e` and lead to just what it leads to. */
  ghost predicate Parts(g: Graph, segs: seq<seq<Obj>>, e: Entry, a: Entry, b: Entry) {
    && EntryOk(g, segs, e) && EntryOk(g, segs, a) && EntryOk(g, segs, b) && Whole(a) == Whole(e) && Whole(b) == Whole(e)
    && forall q :: q in Contents(g, segs, e) <==> q in Contents(g, segs, a) || q in Contents(g, segs, b)
  }

  /** A range is cut at two positions, the second not behind the first. */
  lemma CutIsParts(g: Graph, segs: seq<seq<Obj>>, e: Entry, mid: nat, mid': nat, words: nat, words': nat)
    requires EntryOk(g, segs, e)
    requires var c := Contents(g, segs, Whole(e)); First(e) <= mid' <= mid <= Last(c, e)
    ensures var c := Contents(g, segs, Whole(e));
      Parts(g, segs, e, Part(Whole(e), First(e), mid, words), Part(Whole(e), mid', Last(c, e), words'))
  {
    var c := Contents(g, segs, Whole(e));
    var a, b := Part(Whole(e), First(e), mid, words), Part(Whole(e), mid', Last(c, e), words');
    WholeContents(g, segs, e);
    assert Contents(g, segs, e) == Cut(c, e) && Contents(g, segs, a) == Cut(c, a) && Contents(g, segs, b) == Cut(c, b);
    if Last(c, e) <= |c| {
      SliceIsParts(c, First(e), mid', mid, Last(c, e));
      assert Cut(c, e) == c[First(e)..Last(c, e)];
      assert Cut(c, a) == c[First(e)..mid];
      assert Cut(c, b) == c[mid'..Last(c, e)];
    } else {
      assert Cut(c, e) == [];
      assert Cut(c, a) == [];
      assert Cut(c, b) == [];
    }
  }

  lemma WholeContents(g: Graph, segs: seq<seq<Obj>>, e: Entry)
    requires EntryOk(g, segs, e)
    ensures EntryOk(g, segs, Whole(e))
    ensures Contents(g, segs, Whole(e)) == match Whole(e) case ObjRange(o) => g[o] case RootRange(i) => segs[i]
  {
  }

  lemma SliceIsParts(c: seq<Obj>, from: nat, mid': nat, mid: nat, to: nat)
    requires from <= mid' <= mid <= to <= |c|
    ensures forall q :: q in c[from..to] <==> q in c[from..mid] || q in c[mid'..to]
  {
    assert c[from..to] == c[from..mid] + c[mid..to];
    assert c[mid'..to] == c[mid'..mid] + c[mid..to];
    assert c[from..mid] == c[from..mid'] + c[mid'..mid];
  }

  /** After entry `r` has been scanned, what it was on the stack for is marked. */
  lemma ScannedIsNotBad(g: Graph, segs: seq<seq<Obj>>, r: Entry, marked: set<Obj>, stack: seq<Entry>,
                        marked': set<Obj>, stack': seq<Entry>)
    requires EntryOk(g, segs, r) && stack <= stack' && marked <= marked'
    requires forall q :: q in Contents(g, segs, r) ==> q in marked'
    requires BadObjs(g, marked', stack') <= BadObjs(g, marked, stack) && BadSegs(segs, marked', stack') <= BadSegs(segs, marked, stack)
    ensures BadObjs(g, marked', stack') <= BadObjs(g, marked, stack + [r])
    ensures BadSegs(segs, marked', stack') <= BadSegs(segs, marked, stack + [r])
  {
    assert forall x :: x in stack ==> x in stack';
    assert forall x :: x in stack + [r] <==> x in stack || x == r;
    forall o | o in BadObjs(g, marked', stack') ensures o in BadObjs(g, marked, stack + [r]) {
      var q :| q in g[o] && q !in marked' && !Awaited(g[o], stack', ObjRange(o), q);
      assert !Awaited(g[o], stack + [r], ObjRange(o), q);
    }
    forall i | i in BadSegs(segs, marked', stack') ensures i in BadSegs(segs, marked, stack + [r]) {
      var q :| q in segs[i] && q !in marked' && !Awaited(segs[i], stack', RootRange(i), q);
      assert !Awaited(segs[i], stack + [r], RootRange(i), q);
    }
  }

  /** Some page of block `b` is in the page set. */
  predicate Touched(hdrs: map<nat, Hdr>, pages: set<nat>, b: nat) {
    b in hdrs && exists pg :: b <= pg < b + hdrs[b].nblks && pg in pages
  }

  /**
   Why objects of block `b` may be marked, off the stack, and still point to something
   unmarked: the block will be looked at again before marking can end.
   */
  ghost predicate Excused(state: MarkState, scanPtr: nat, hdrs: map<nat, Hdr>, dirty: set<nat>, grungy: set<nat>, b: nat) {
    Touched(hdrs, dirty, b) ||
    match state
    case PushRescuers => scanPtr <= b && Touched(hdrs, grungy, b)
    case PushUncollectable => scanPtr <= b && b in hdrs && hdrs[b].kind == Uncollectable
    case PartiallyInvalid => scanPtr <= b
    case Invalid => true
    case _ => false
  }

  ghost predicate OnlyUncollectableMarked(hdrs: map<nat, Hdr>, marked: set<Obj>) {
    forall o :: o in marked ==> o.blk in hdrs && hdrs[o.blk].IsUncollectable()
  }

  /** What each mark state promises about marked objects and static roots. */
  ghost predicate StateInv(state: MarkState, scanPtr: nat, objectsAreMarked: bool, stack: seq<Entry>, marked: set<Obj>,
                           hdrs: map<nat, Hdr>, g: Graph, segs: seq<seq<Obj>>,
                           dirty: set<nat>, dirtySegs: set<nat>, grungy: set<nat>, grungySegs: set<nat>)
  {
    && (state == None ==> stack == [])
    && (state == PartiallyInvalid ==> objectsAreMarked)
    && (state == Invalid && !objectsAreMarked ==> scanPtr == 0 && stack == [] && OnlyUncollectableMarked(hdrs, marked))
    && (forall o :: o in BadObjs(g, marked, stack) ==> Excused(state, scanPtr, hdrs, dirty, grungy, o.blk))
    && (state in {None, RootsPushed} ==> BadSegs(segs, marked, stack) <= dirtySegs)
    && (state == PushRescuers ==> BadSegs(segs, marked, stack) <= dirtySegs + grungySegs)
  }

  ghost function Unmarked(g: Graph, marked: set<Obj>): nat {
    |g.Keys - marked|
  }

  lemma MarkingLowersUnmarked(g: Graph, before: set<Obj>, after: set<Obj>)
    requires before <= after <= g.Keys
    ensures Unmarked(g, after) < Unmarked(g, before) || after == before
  {
    if after != before {
      SmallerRest(g.Keys, before, after);
    }
  }

  /** Every mark, and everything the mark stack will lead to, is reachable from `s`. */
  ghost predicate Justified(g: Graph, segs: seq<seq<Obj>>, marked: set<Obj>, stack: seq<Entry>, s: set<Obj>) {
    && (forall o :: o in marked ==> Reaches(g, s, o))
    && (forall i, q :: 0 <= i < |stack| && EntryOk(g, segs, stack[i]) && q in Contents(g, segs, stack[i])
          ==> Reaches(g, s, q))
  }

  lemma JustifiedMark(g: Graph, segs: seq<seq<Obj>>, marked: set<Obj>, stack: seq<Entry>, s: set<Obj>, o: Obj)
    requires o in marked
    ensures Justified(g, segs, marked, stack, s) ==> Reaches(g, s, o)
  {
  }

  // -----------------------------------------------------------------------------------
  // How much the mark stack has to hold
  // -----------------------------------------------------------------------------------

  /**
   How many entries the range of so many words can take at the same time: with parallel marking
   its first half, and a word more, stays on the stack while the second half is scanned.
   */
  function Depth(parallel: bool, words: nat): (d: nat)
    ensures d >= 1
  {
    if parallel && words > R.SHARE_WORDS then 1 + Depth(parallel, words / 2 + 1) else 1
  }

  lemma {:induction false} DepthGrows(parallel: bool, words: nat, more: nat)
    requires words <= more
    ensures Depth(parallel, words) <= Depth(parallel, more)
    decreases more
  {
    if parallel && words > R.SHARE_WORDS {
      DepthGrows(parallel, words / 2 + 1, more / 2 + 1);
    }
  }

  function EntryWords(hdrs: map<nat, Hdr>, rootWords: nat, e: Entry): nat {
    match e
    case ObjRange(o) => if o.blk in hdrs then hdrs[o.blk].ObjWords() else 0
    case RootRange(_) => rootWords
    case Part(_, _, _, words) => words
  }

  /** The stack has room for what is on it and for `rest` more entries, whatever is cut into parts in between. */
  ghost predicate RoomFor(parallel: bool, hdrs: map<nat, Hdr>, rootWords: nat, stack: seq<Entry>, rest: nat, size: nat) {
    && |stack| + rest <= size
    && forall i :: 0 <= i < |stack| ==> i + Depth(parallel, EntryWords(hdrs, rootWords, stack[i])) + rest <= size
  }

  lemma RoomForParts(parallel: bool, hdrs: map<nat, Hdr>, rootWords: nat, stack: seq<Entry>, e: Entry, a: Entry, b: Entry,
                     rest: nat, size: nat)
    requires RoomFor(parallel, hdrs, rootWords, stack + [e], rest, size)
    requires parallel && EntryWords(hdrs, rootWords, e) > R.SHARE_WORDS
    requires var n := EntryWords(hdrs, rootWords, e) / 2 + 1;
      EntryWords(hdrs, rootWords, a) <= n && EntryWords(hdrs, rootWords, b) <= n
    ensures RoomFor(parallel, hdrs, rootWords, stack + [a, b], rest, size)
  {
    var n := EntryWords(hdrs, rootWords, e) / 2 + 1;
    DepthGrows(parallel, EntryWords(hdrs, rootWords, a), n);
    DepthGrows(parallel, EntryWords(hdrs, rootWords, b), n);
    assert (stack + [e])[|stack|] == e;
    forall i | 0 <= i < |stack| + 2
      ensures i + Depth(parallel, EntryWords(hdrs, rootWords, (stack + [a, b])[i])) + rest <= size
    {
      assert i < |stack| ==> (stack + [a, b])[i] == (stack + [e])[i];
    }
  }

  lemma RoomForLess(parallel: bool, hdrs: map<nat, Hdr>, rootWords: nat, stack: seq<Entry>, e: Entry, a: Entry, rest: nat, size: nat)
    requires RoomFor(parallel, hdrs, rootWords, stack + [e], rest, size)
    ensures RoomFor(parallel, hdrs, rootWords, stack, rest, size)
    ensures EntryWords(hdrs, rootWords, a) <= EntryWords(hdrs, rootWords, e) ==>
              RoomFor(parallel, hdrs, rootWords, stack + [a], rest, size)
  {
    var st := stack + [e];
    assert forall i :: 0 <= i < |stack| ==> st[i] == stack[i] && (stack + [a])[i] == stack[i];
    if EntryWords(hdrs, rootWords, a) <= EntryWords(hdrs, rootWords, e) {
      DepthGrows(parallel, EntryWords(hdrs, rootWords, a), EntryWords(hdrs, rootWords, e));
      assert st[|stack|] == e;
    }
  }

  /** What can still come onto the mark stack: for every unmarked object with pointers, the entries that its range can take. */
  ghost function ToBeScanned(parallel: bool, hdrs: map<nat, Hdr>, g: Graph, marked: set<Obj>): set<(Obj, nat)> {
    set o, k: nat | o in g && o !in marked && o.blk in hdrs && hdrs[o.blk].HasDescr()
                    && k < Depth(parallel, hdrs[o.blk].ObjWords()) :: (o, k)
  }

  ghost function EntriesOf(q: Obj, n: nat): set<(Obj, nat)> {
    set k: nat | k < n :: (q, k)
  }

  lemma {:induction false} EntriesCount(q: Obj, n: nat)
    ensures |EntriesOf(q, n)| == n
  {
    if n > 0 {
      EntriesCount(q, n - 1);
      assert EntriesOf(q, n) == EntriesOf(q, n - 1) + {(q, n - 1)};
    } else {
      assert EntriesOf(q, n) == {};
    }
  }

  lemma OneLessToScan(parallel: bool, hdrs: map<nat, Hdr>, g: Graph, marked: set<Obj>, q: Obj)
    requires q in g && q !in marked
    ensures |ToBeScanned(parallel, hdrs, g, marked + {q})| == |ToBeScanned(parallel, hdrs, g, marked)| -
            if q.blk in hdrs && hdrs[q.blk].HasDescr() then Depth(parallel, hdrs[q.blk].ObjWords()) else 0
  {
    var rest := ToBeScanned(parallel, hdrs, g, marked + {q});
    if q.blk in hdrs && hdrs[q.blk].HasDescr() {
      var n := Depth(parallel, hdrs[q.blk].ObjWords());
      EntriesCount(q, n);
      assert ToBeScanned(parallel, hdrs, g, marked) == rest + EntriesOf(q, n);
      assert rest !! EntriesOf(q, n);
    } else {
      assert ToBeScanned(parallel, hdrs, g, marked) == rest;
    }
  }

  /** How much of a range there is left to cut: parts that overlap in a word have less of it together. */
  function Excess(words: nat): nat {
    if words >= 2 then words - 2 else 0
  }

  ghost function TotalExcess(hdrs: map<nat, Hdr>, rootWords: nat, stack: seq<Entry>): nat {
    if stack == [] then 0
    else TotalExcess(hdrs, rootWords, stack[..|stack| - 1]) + Excess(EntryWords(hdrs, rootWords, stack[|stack| - 1]))
  }

  lemma TotalExcessPush(hdrs: map<nat, Hdr>, rootWords: nat, stack: seq<Entry>, e: Entry)
    ensures TotalExcess(hdrs, rootWords, stack + [e]) == TotalExcess(hdrs, rootWords, stack) + Excess(EntryWords(hdrs, rootWords, e))
  {
    assert (stack + [e])[..|stack|] == stack;
  }

  /** The heap, the roots and the marks at the moment a mark phase was completed. */
  datatype Snapshot = Snapshot(g: Graph, roots: set<Obj>, marked: set<Obj>)

  /** Nothing that the client could still reach was left unmarked. */
  ghost predicate Safe(c: Snapshot) {
    forall o :: Reaches(c.g, c.roots, o) ==> o in c.marked
  }

  lemma LeadsToItself(g: Graph, segs: seq<seq<Obj>>, stack: seq<Entry>)
    ensures LeadsOn(g, segs, stack, stack)
  {
  }

  lemma JustifiedParts(g: Graph, segs: seq<seq<Obj>>, marked: set<Obj>, stack: seq<Entry>, e: Entry, a: Entry, b: Entry, s: set<Obj>)
    requires Parts(g, segs, e, a, b)
    ensures Justified(g, segs, marked, stack + [e], s) ==> Justified(g, segs, marked, stack + [a, b], s)
  {
    if Justified(g, segs, marked, stack + [e], s) {
      var before, after := stack + [e], stack + [a, b];
      assert before[|stack|] == e;
      forall i, q | 0 <= i < |after| && EntryOk(g, segs, after[i]) && q in Contents(g, segs, after[i]) ensures Reaches(g, s, q) {
        assert i < |stack| ==> after[i] == before[i];
      }
    }
  }

  /** What holds of the stack with `e` on top holds of the stack and of what `e` leads to. */
  lemma JustifiedTop(g: Graph, segs: seq<seq<Obj>>, marked: set<Obj>, stack: seq<Entry>, e: Entry, s: set<Obj>)
    requires EntryOk(g, segs, e)
    ensures Justified(g, segs, marked, stack + [e], s) ==>
              Justified(g, segs, marked, stack, s) && forall q :: q in Contents(g, segs, e) ==> Reaches(g, s, q)
  {
    var all := stack + [e];
    assert all[|stack|] == e && forall i :: 0 <= i < |stack| ==> all[i] == stack[i];
  }

  class Collector {
    // The heap and the roots, which belong to the client.
    var hdrs: map<nat, Hdr>
    var heapTop: nat
    var fields: Graph
    var segs: seq<seq<Obj>>
    var stackRoots: seq<Obj>
    // Virtual dirty bits: written since the last reading, and those of the last reading.
    var dirty: set<nat>
    var dirtySegs: set<nat>
    var grungy: set<nat>
    var grungySegs: set<nat>
    // The marker.
    var marked: set<Obj>
    var markState: MarkState
    var scanPtr: nat
    var objectsAreMarked: bool
    var stack: seq<Entry>
    var stackSize: nat
    var stackTooSmall: bool
    /** How often `GC_mark_some` has been called. */
    ghost var calls: nat
    /** Whether long ranges are halved, so that other markers can take a part. */
    const parallel: bool
    /** No root segment has more words than this. */
    const rootWords: nat
    // The drivers.
    const incremental: bool
    var worldStopped: bool
    var aborted: bool
    var isFullGc: bool
    var deficit: nat
    var nAttempts: nat
    var gcNo: nat
    /** What there was at the end of each completed mark phase. */
    ghost var snapshots: seq<Snapshot>

    /** The collector as it starts: an empty heap, `nSegs` root segments without pointers. */
    constructor (nSegs: nat, incremental: bool, parallel: bool, rootWords: nat)
      requires nSegs <= INITIAL_MARK_STACK_SIZE / 2
      ensures Valid() && !worldStopped && this.incremental == incremental && |segs| == nSegs
      ensures this.parallel == parallel && this.rootWords == rootWords
    {
      this.incremental, this.parallel, this.rootWords := incremental, parallel, rootWords;
      hdrs, heapTop, fields := map[], 1, map[];
      segs := seq(nSegs, i => []);
      stackRoots := [];
      dirty, dirtySegs, grungy, grungySegs := {}, {}, {}, {};
      marked, markState, scanPtr, objectsAreMarked := {}, None, 0, false;
      stack, stackSize, stackTooSmall := [], INITIAL_MARK_STACK_SIZE, false;
      worldStopped, aborted, isFullGc := false, false, false;
      deficit, nAttempts, gcNo, snapshots := 0, 0, 0, [];
    }

    // ---------------------------------------------------------------------------------
    // What is true of the data structures in every state
    // ---------------------------------------------------------------------------------

    ghost predicate BlockShape()
      reads this`hdrs, this`heapTop, this`fields
    {
      BlocksOk(hdrs, heapTop, fields)
    }

    ghost predicate GraphShape()
      reads this`hdrs, this`fields, this`segs, this`stackRoots
    {
      PointersOk(hdrs, fields, segs, stackRoots)
    }

    ghost predicate StackShape()
      reads this`fields, this`segs, this`stack, this`stackSize, this`marked, this`scanPtr, this`heapTop
    {
      && marked <= fields.Keys
      && (forall i :: 0 <= i < |stack| ==> EntryOk(fields, segs, stack[i]))
      && |stack| <= stackSize
      && INITIAL_MARK_STACK_SIZE <= stackSize
      && scanPtr <= heapTop
    }

    /** The segments leave room on the mark stack: so many that they do not would end in an abort. */
    ghost predicate FewSegs()
      reads this`segs
    {
      |segs| <= INITIAL_MARK_STACK_SIZE / 2
    }

    ghost predicate Shape()
      reads this`hdrs, this`fields, this`segs, this`stackRoots, this`stack, this`stackSize, this`marked, this`scanPtr,
            this`heapTop
    {
      GraphShape() && StackShape()
    }

    /** Everything that a root points to. */
    ghost function RootTargets(): (r: set<Obj>)
      reads this`segs, this`stackRoots
    {
      (set q | q in stackRoots) + (set s, q | 0 <= s < |segs| && q in segs[s] :: q)
    }

    // ---------------------------------------------------------------------------------
    // The marking invariant
    // ---------------------------------------------------------------------------------

    ghost predicate StackRootsMarked()
      reads this`stackRoots, this`marked
    {
      forall q :: q in stackRoots ==> q in marked
    }

    ghost predicate MarkInv()
      reads this`markState, this`stack, this`objectsAreMarked, this`scanPtr, this`marked, this`hdrs, this`fields,
            this`segs, this`dirty, this`dirtySegs, this`grungy, this`grungySegs
    {
      && (markState == PushRescuers ==> incremental)
      && StateInv(markState, scanPtr, objectsAreMarked, stack, marked, hdrs, fields, segs,
                  dirty, dirtySegs, grungy, grungySegs)
    }

    /** Every mark phase that was completed so far is on record, and was safe. */
    ghost predicate Recorded()
      reads this`gcNo, this`snapshots
    {
      gcNo == |snapshots| && forall c :: c in snapshots ==> Safe(c)
    }

    ghost predicate Valid()
      reads this
    {
      && BlockShape() && Shape() && FewSegs() && Recorded()
      && !aborted
      && (incremental || worldStopped ==> MarkInv())
      && (worldStopped || !incremental ==> dirty == {} && dirtySegs == {})
      && (worldStopped && markState in {RootsPushed, None} ==> StackRootsMarked())
    }

    ghost function Phase(): nat
      reads this`markState, this`objectsAreMarked, this`scanPtr
    {
      match markState
      case None => 0
      case RootsPushed => 1
      case PushRescuers => 2
      case PushUncollectable => 2
      case PartiallyInvalid => if objectsAreMarked then 2 else 5
      case Invalid => if !objectsAreMarked then 5 else if scanPtr == 0 then 3 else 4
    }

    ghost function ScanLeft(): nat
      requires scanPtr <= heapTop
      reads this`scanPtr, this`heapTop
    {
      heapTop - scanPtr
    }

    /** Everything that object `o` points to is marked, or the mark stack will see to that. */
    ghost predicate Covered(o: Obj)
      reads this`fields, this`stack, this`marked
    {
      o in fields && forall q :: q in fields[o] ==> q in marked || Awaited(fields[o], stack, ObjRange(o), q)
    }

    ghost function Excesses(): nat
      reads this`stack, this`hdrs
    {
      TotalExcess(hdrs, rootWords, stack)
    }

    /** There is less on the mark stack: less to be cut into parts, or as much in fewer entries. */
    twostate predicate LessOnStack()
      reads this`stack, this`hdrs
    {
      Excesses() < old(Excesses()) || (Excesses() == old(Excesses()) && |stack| < old(|stack|))
    }

    // ---------------------------------------------------------------------------------
    // The mark stack
    // ---------------------------------------------------------------------------------

    /** The mark stack has room for all that can still come onto it: it will not overflow. */
    ghost predicate Roomy()
      reads this`stack, this`stackSize, this`hdrs, this`fields, this`marked
    {
      RoomFor(parallel, hdrs, rootWords, stack, |ToBeScanned(parallel, hdrs, fields, marked)|, stackSize)
    }

    /** The wish for a larger mark stack comes with an overflow, and stays. */
    twostate predicate WishesForMore()
      reads this`stackTooSmall, this`markState
    {
      && (old(stackTooSmall) || markState != old(markState) ==> stackTooSmall)
      && (markState != Invalid ==> stackTooSmall == old(stackTooSmall))
    }

    /** `GC_push_obj`: an overflow drops the topmost entries and invalidates the mark state. */
    method PushObj(o: Obj, ghost s: set<Obj>)
      requires Shape() && o in fields
      modifies this`stack, this`markState, this`stackTooSmall
      ensures Shape()
      ensures !hdrs[o.blk].HasDescr() ==> stack == old(stack) && markState == old(markState)
      ensures hdrs[o.blk].HasDescr() ==>
                if old(|stack|) < stackSize
                then stack == old(stack) + [ObjRange(o)] && markState == old(markState)
                else stack == old(stack)[..stackSize - MARK_STACK_DISCARDS] + [ObjRange(o)] && markState == Invalid
      ensures stackTooSmall == (old(stackTooSmall) || (hdrs[o.blk].HasDescr() && old(|stack|) >= stackSize))
      ensures old(Justified(fields, segs, marked, stack, s)) && Reaches(fields, s, o) ==>
                Justified(fields, segs, marked, stack, s)
    {
      if Reaches(fields, s, o) {
        forall x | x in fields[o]
          ensures Reaches(fields, s, x)
        {
          ReachesStep(fields, s, o, x);
        }
      }
      if hdrs[o.blk].HasDescr() {
        var top := |stack|;
        if top >= stackSize {
          markState := Invalid;
          stackTooSmall := true;
          top := top - MARK_STACK_DISCARDS;
        }
        stack := stack[..top] + [ObjRange(o)];
      }
    }

    /** `GC_push_contents_hdr` for a pointer that has been recognised as one to object `q`. */
    method MarkAndPush(q: Obj, ghost s: set<Obj>)
      requires Shape() && q in fields
      modifies this`marked, this`stack, this`markState, this`stackTooSmall
      ensures Shape()
      ensures marked == old(marked) + {q}
      ensures q in old(marked) ==> stack == old(stack) && markState == old(markState)
      ensures markState == old(markState) || markState == Invalid
      ensures WishesForMore()
      ensures markState != old(markState) ==> q !in old(marked)
      ensures markState != Invalid ==> old(stack) <= stack
      ensures stack == [] ==> old(stack) == [] && markState == old(markState)
      ensures markState != Invalid && q !in old(marked) && hdrs[q.blk].HasDescr() ==> |stack| == old(|stack|) + 1
      ensures markState != Invalid ==> BadObjs(fields, marked, stack) <= old(BadObjs(fields, marked, stack))
      ensures markState != Invalid ==> BadSegs(segs, marked, stack) <= old(BadSegs(segs, marked, stack))
      ensures old(Roomy()) ==> Roomy() && markState == old(markState)
      ensures old(Justified(fields, segs, marked, stack, s)) && Reaches(fields, s, q) ==> Justified(fields, segs, marked, stack, s)
    {
      if q !in marked {
        OneLessToScan(parallel, hdrs, fields, marked, q);
        marked := marked + {q};
        PushObj(q, s);
        hide BadObjs, BadSegs, Awaited;
        if markState != Invalid {
          assert hdrs[q.blk].HasDescr() ==> stack[|stack| - 1] == ObjRange(q);
          PushedIsNotBad(fields, segs, old(marked), q, old(stack), stack);
        }
      }
    }

    /** The scan of one range in `GC_mark_from`: every pointer in it is marked and pushed. */
    method ScanRange(e: Entry, ghost s: set<Obj>)
      requires Shape()
      requires EntryOk(fields, segs, e)
      modifies this`marked, this`stack, this`markState, this`stackTooSmall
      ensures Shape()
      ensures marked == old(marked) + (set q | q in Contents(fields, segs, e))
      ensures marked == old(marked) ==> stack == old(stack) && markState == old(markState)
      ensures markState == old(markState) || markState == Invalid
      ensures WishesForMore()
      ensures markState != Invalid ==> old(stack) <= stack
      ensures markState != Invalid ==> BadObjs(fields, marked, stack) <= old(BadObjs(fields, marked, stack))
      ensures markState != Invalid ==> BadSegs(segs, marked, stack) <= old(BadSegs(segs, marked, stack))
      ensures old(Roomy()) ==> Roomy() && markState == old(markState)
      ensures old(Justified(fields, segs, marked, stack, s))
              && (forall q :: q in Contents(fields, segs, e) ==> Reaches(fields, s, q)) ==>
                Justified(fields, segs, marked, stack, s)
    {
      hide Justified, BadObjs, BadSegs, StackShape, Roomy;
      var c := Contents(fields, segs, e);
      for i := 0 to |c|
        invariant Shape()
        invariant marked == old(marked) + (set q | q in c[..i])
        invariant marked == old(marked) ==> stack == old(stack) && markState == old(markState)
        invariant markState == old(markState) || markState == Invalid
        invariant WishesForMore()
        invariant markState != Invalid ==> old(stack) <= stack
        invariant markState != Invalid ==> BadObjs(fields, marked, stack) <= old(BadObjs(fields, marked, stack))
        invariant markState != Invalid ==> BadSegs(segs, marked, stack) <= old(BadSegs(segs, marked, stack))
        invariant old(Roomy()) ==> Roomy() && markState == old(markState)
        invariant old(Justified(fields, segs, marked, stack, s)) && (forall q :: q in c ==> Reaches(fields, s, q)) ==>
                    Justified(fields, segs, marked, stack, s)
      {
        assert c[..i + 1] == c[..i] + [c[i]];
        MarkAndPush(c[i], s);
      }
      assert c[..|c|] == c;
    }

    /** A part of entry `e` is left on the stack, the other part is what to go on with. */
    method LeavePart(e: Entry, words: nat, words': nat, secondFirst: bool, ghost s: set<Obj>) returns (r: Entry)
      requires Shape() && EntryOk(fields, segs, e) && |stack| < stackSize
      modifies this`stack
      ensures Shape() && EntryOk(fields, segs, r) && |stack| == old(|stack|) + 1
      ensures EntryWords(hdrs, rootWords, r) == (if secondFirst then words' else words)
      ensures stack[..|stack| - 1] == old(stack)
      ensures EntryWords(hdrs, rootWords, stack[|stack| - 1]) == (if secondFirst then words else words')
      ensures LeadsOn(fields, segs, old(stack) + [e], stack + [r])
      ensures Justified(fields, segs, marked, old(stack) + [e], s) ==> Justified(fields, segs, marked, stack + [r], s)
    {
      hide LeadsOn, Cut, Last;
      var c := Contents(fields, segs, Whole(e));
      var mid' :| First(e) <= mid' <= Last(c, e);
      var mid :| mid' <= mid <= Last(c, e);
      var first, second := Part(Whole(e), First(e), mid, words), Part(Whole(e), mid', Last(c, e), words');
      CutIsParts(fields, segs, e, mid, mid', words, words');
      PartsLeadOn(fields, segs, stack, e, first, second);
      PartsLeadOn(fields, segs, stack, e, second, first);
      JustifiedParts(fields, segs, marked, stack, e, first, second, s);
      JustifiedParts(fields, segs, marked, stack, e, second, first, s);
      r := if secondFirst then second else first;
      stack := stack + [if secondFirst then first else second];
      assert stack + [r] == old(stack) + (if secondFirst then [first, second] else [second, first]);
    }

    /** With parallel marking long ranges are halved as long as there is room: first halves stay on the stack for others. */
    method ShareRange(e: Entry, ghost s: set<Obj>) returns (r: Entry)
      requires Shape() && EntryOk(fields, segs, e) && |stack| < stackSize
      modifies this`stack
      ensures Shape() && EntryOk(fields, segs, r) && |stack| < stackSize
      ensures TotalExcess(hdrs, rootWords, stack + [r]) < old(TotalExcess(hdrs, rootWords, stack + [e])) || (stack == old(stack) && r == e)
      ensures LeadsOn(fields, segs, old(stack) + [e], stack + [r])
      ensures Justified(fields, segs, marked, old(stack) + [e], s) ==> Justified(fields, segs, marked, stack + [r], s)
      ensures forall n: nat :: RoomFor(parallel, hdrs, rootWords, old(stack) + [e], n, stackSize) ==>
                RoomFor(parallel, hdrs, rootWords, stack + [r], n, stackSize)
    {
      hide LeadsOn, Justified, RoomFor, StackShape, TotalExcess;
      r := e;
      var more: bool := *;
      LeadsToItself(fields, segs, stack + [e]);
      while more && parallel && EntryWords(hdrs, rootWords, r) > R.SHARE_WORDS && |stack| + 1 < stackSize
        invariant Shape() && EntryOk(fields, segs, r) && |stack| < stackSize
        invariant TotalExcess(hdrs, rootWords, stack + [r]) < old(TotalExcess(hdrs, rootWords, stack + [e])) ||
                  (stack == old(stack) && r == e)
        invariant LeadsOn(fields, segs, old(stack) + [e], stack + [r])
        invariant Justified(fields, segs, marked, old(stack) + [e], s) ==> Justified(fields, segs, marked, stack + [r], s)
        invariant forall n: nat :: RoomFor(parallel, hdrs, rootWords, old(stack) + [e], n, stackSize) ==>
                    RoomFor(parallel, hdrs, rootWords, stack + [r], n, stackSize)
        decreases EntryWords(hdrs, rootWords, r)
      {
        r := HalveRange(r, s, old(stack) + [e]);
        more := *;
      }
    }

    method HalveRange(e: Entry, ghost s: set<Obj>, ghost start: seq<Entry>) returns (r: Entry)
      requires Shape() && EntryOk(fields, segs, e) && |stack| + 1 < stackSize
      requires parallel && EntryWords(hdrs, rootWords, e) > R.SHARE_WORDS
      requires LeadsOn(fields, segs, start, stack + [e])
      modifies this`stack
      ensures Shape() && EntryOk(fields, segs, r) && |stack| < stackSize
      ensures EntryWords(hdrs, rootWords, r) < EntryWords(hdrs, rootWords, e)
      ensures TotalExcess(hdrs, rootWords, stack + [r]) < old(TotalExcess(hdrs, rootWords, stack + [e]))
      ensures LeadsOn(fields, segs, start, stack + [r])
      ensures Justified(fields, segs, marked, old(stack) + [e], s) ==> Justified(fields, segs, marked, stack + [r], s)
      ensures forall n: nat :: RoomFor(parallel, hdrs, rootWords, old(stack) + [e], n, stackSize) ==>
                RoomFor(parallel, hdrs, rootWords, stack + [r], n, stackSize)
    {
      hide LeadsOn, Justified, RoomFor, StackShape, TotalExcess;
      var words := EntryWords(hdrs, rootWords, e);
      ghost var st := stack;
      r := LeavePart(e, words / 2 + 1, words - words / 2, true, s);
      LeadsOnTrans(fields, segs, start, st + [e], stack + [r]);
      ghost var a := stack[|stack| - 1];
      assert stack == st + [a] && stack + [r] == st + [a, r] && st + [a, r] == st + [a] + [r];
      TotalExcessPush(hdrs, rootWords, st, e);
      TotalExcessPush(hdrs, rootWords, st, a);
      TotalExcessPush(hdrs, rootWords, st + [a], r);
      forall n: nat | RoomFor(parallel, hdrs, rootWords, st + [e], n, stackSize)
        ensures RoomFor(parallel, hdrs, rootWords, st + [a, r], n, stackSize)
      {
        RoomForParts(parallel, hdrs, rootWords, st, e, a, r, n, stackSize);
      }
    }

    /** Of a range of 128 words or more only the first ones are scanned now, and the rest stays on the stack. */
    method SplitRange(e: Entry, ghost s: set<Obj>) returns (r: Entry)
      requires Shape() && EntryOk(fields, segs, e) && |stack| < stackSize
      modifies this`stack
      ensures Shape() && EntryOk(fields, segs, r)
      ensures Excesses() < old(TotalExcess(hdrs, rootWords, stack + [e])) || (stack == old(stack) && r == e)
      ensures LeadsOn(fields, segs, old(stack) + [e], stack + [r])
      ensures Justified(fields, segs, marked, old(stack) + [e], s) ==> Justified(fields, segs, marked, stack + [r], s)
      ensures forall n: nat :: RoomFor(parallel, hdrs, rootWords, old(stack) + [e], n, stackSize) ==>
                RoomFor(parallel, hdrs, rootWords, stack, n, stackSize)
    {
      hide LeadsOn, Justified, RoomFor, StackShape, TotalExcess;
      r := e;
      var words := EntryWords(hdrs, rootWords, e);
      var long: bool := *;
      ghost var st := stack;
      LeadsToItself(fields, segs, stack + [e]);
      if long && words >= R.SPLIT_RANGE_WORDS {
        r := LeavePart(e, R.SPLIT_RANGE_WORDS, words - (R.SPLIT_RANGE_WORDS - 1), false, s);
        ghost var b := stack[|stack| - 1];
        assert stack == st + [b];
        TotalExcessPush(hdrs, rootWords, st, e);
        TotalExcessPush(hdrs, rootWords, st, b);
      }
      forall n: nat | RoomFor(parallel, hdrs, rootWords, st + [e], n, stackSize)
        ensures RoomFor(parallel, hdrs, rootWords, stack, n, stackSize)
      {
        RoomForLess(parallel, hdrs, rootWords, st, e, if stack == st then e else stack[|stack| - 1], n, stackSize);
      }
    }

    /**
     One turn of the loop in `GC_mark_from`: the topmost range is taken off the stack, parts of it
     are put back if it is long, and what is left is scanned.
     */
    method MarkOne(ghost s: set<Obj>)
      requires Shape() && stack != []
      modifies this`marked, this`stack, this`markState, this`stackTooSmall
      ensures Shape()
      ensures old(marked) <= marked
      ensures marked == old(marked) ==> LessOnStack() && markState == old(markState)
      ensures markState == old(markState) || markState == Invalid
      ensures WishesForMore()
      ensures markState != Invalid ==> forall o :: old(Covered(o)) ==> Covered(o)
      ensures markState != Invalid ==> BadObjs(fields, marked, stack) <= old(BadObjs(fields, marked, stack))
      ensures markState != Invalid ==> BadSegs(segs, marked, stack) <= old(BadSegs(segs, marked, stack))
      ensures old(Roomy()) ==> Roomy() && markState == old(markState)
      ensures old(Justified(fields, segs, marked, stack, s)) ==> Justified(fields, segs, marked, stack, s)
    {
      hide ToBeScanned, RoomFor, LeadsOn, Justified, BadObjs, BadSegs, Awaited, TotalExcess, GraphShape;
      var e := TakeRange(s);
      ghost var st1, marked1 := stack, marked;
      ScanRange(e, s);
      if markState != Invalid {
        LeadsOnBad(fields, segs, marked1, old(stack), st1 + [e]);
        ScannedIsNotBad(fields, segs, e, marked1, st1, marked, stack);
        StillCovered(old(stack), marked1, st1, e);
      }
    }

    /** The topmost range is taken off the stack, and parts of it are put back if it is long. */
    method TakeRange(ghost s: set<Obj>) returns (e: Entry)
      requires Shape() && stack != []
      modifies this`stack
      ensures Shape() && EntryOk(fields, segs, e) && LessOnStack()
      ensures LeadsOn(fields, segs, old(stack), stack + [e])
      ensures old(Roomy()) ==> Roomy()
      ensures old(Justified(fields, segs, marked, stack, s)) ==>
                Justified(fields, segs, marked, stack, s) && forall q :: q in Contents(fields, segs, e) ==> Reaches(fields, s, q)
    {
      hide ToBeScanned, RoomFor, LeadsOn, Justified, TotalExcess, GraphShape, Contents, Reaches;
      e := stack[|stack| - 1];
      ghost var stack0 := stack;
      stack := stack[..|stack| - 1];
      assert stack + [e] == stack0;
      TotalExcessPush(hdrs, rootWords, stack, e);
      e := ShareRange(e, s);
      ghost var mid := stack + [e];
      e := SplitRange(e, s);
      LeadsOnTrans(fields, segs, stack0, mid, stack + [e]);
      JustifiedTop(fields, segs, marked, stack, e, s);
      TotalExcessPush(hdrs, rootWords, stack, e);
    }

    /** Each of the pointers `c` of object `o` was marked, or the stack led to it from there. */
    static ghost predicate WasCovered(c: seq<Obj>, marked0: set<Obj>, stack0: seq<Entry>, o: Obj) {
      forall q :: q in c ==> q in marked0 || Awaited(c, stack0, ObjRange(o), q)
    }

    lemma StillCovered(stack0: seq<Entry>, marked0: set<Obj>, st: seq<Entry>, e: Entry)
      requires EntryOk(fields, segs, e) && LeadsOn(fields, segs, stack0, st + [e]) && st <= stack && marked0 <= marked
      requires forall q :: q in Contents(fields, segs, e) ==> q in marked
      ensures forall o :: o in fields && WasCovered(fields[o], marked0, stack0, o) ==> Covered(o)
    {
      assert forall x :: x in st ==> x in stack;
      forall o, q | o in fields && q in fields[o] && Awaited(fields[o], stack0, ObjRange(o), q)
        ensures q in marked || Awaited(fields[o], stack, ObjRange(o), q)
      {
        assert Awaited(fields[o], st + [e], ObjRange(o), q);
        var x :| x in st + [e] && Whole(x) == ObjRange(o) && q in Cut(fields[o], x);
        assert x in st || x == e;
      }
    }

    /**
     `GC_mark_from` on the main mark stack: takes entries off the stack until it is empty or
     the credit for this call is used up; at least one entry is processed.
     */
    method MarkFrom(ghost s: set<Obj>)
      requires Shape()
      modifies this`marked, this`stack, this`markState, this`stackTooSmall, this`objectsAreMarked
      ensures Shape() && objectsAreMarked
      ensures old(marked) <= marked
      ensures marked == old(marked) ==> markState == old(markState) && (stack == old(stack) || LessOnStack())
      ensures marked == old(marked) && old(stack) != [] ==> LessOnStack()
      ensures old(StackRootsMarked()) ==> StackRootsMarked()
      ensures markState == old(markState) || markState == Invalid
      ensures WishesForMore()
      ensures markState != Invalid ==> forall o :: old(Covered(o)) ==> Covered(o)
      ensures markState != Invalid ==> BadObjs(fields, marked, stack) <= old(BadObjs(fields, marked, stack))
      ensures markState != Invalid ==> BadSegs(segs, marked, stack) <= old(BadSegs(segs, marked, stack))
      ensures old(Roomy()) ==> Roomy() && markState == old(markState)
      ensures old(Justified(fields, segs, marked, stack, s)) ==> Justified(fields, segs, marked, stack, s)
    {
      hide Justified, BadObjs, BadSegs, Shape, GraphShape, StackShape, Covered, Roomy;
      objectsAreMarked := true;
      var credit :| 0 <= credit;
      ghost var first := true;
      while stack != [] && 0 <= credit
        invariant Shape() && objectsAreMarked
        invariant old(marked) <= marked
        invariant marked == old(marked) ==> markState == old(markState)
        invariant marked == old(marked) && !first ==> LessOnStack()
        invariant first ==> credit >= 0 && stack == old(stack)
        invariant old(StackRootsMarked()) ==> StackRootsMarked()
        invariant markState == old(markState) || markState == Invalid
        invariant WishesForMore()
        invariant markState != Invalid ==> forall o :: old(Covered(o)) ==> Covered(o)
        invariant markState != Invalid ==> BadObjs(fields, marked, stack) <= old(BadObjs(fields, marked, stack))
        invariant markState != Invalid ==> BadSegs(segs, marked, stack) <= old(BadSegs(segs, marked, stack))
        invariant old(Roomy()) ==> Roomy() && markState == old(markState)
        invariant old(Justified(fields, segs, marked, stack, s)) ==> Justified(fields, segs, marked, stack, s)
        decreases credit
      {
        MarkOne(s);
        credit := credit - 1;
        first := false;
      }
    }

    // ---------------------------------------------------------------------------------
    // Pushing marked blocks and roots
    // ---------------------------------------------------------------------------------

    /** `HDR` followed by `GC_next_block`: the first block in use at or above `h`, or 0. */
    method NextBlock(h: nat) returns (b: nat)
      requires BlockShape()
      ensures b == 0 ==> forall k :: k in hdrs ==> k < h
      ensures b != 0 ==> h <= b && b in hdrs && forall k :: k in hdrs && h <= k ==> b <= k
    {
      b := h;
      while b < heapTop && b !in hdrs
        invariant h <= b
        invariant forall k :: k in hdrs && h <= k ==> b <= k
      {
        b := b + 1;
      }
      if heapTop <= b {
        b := 0;
      }
    }

    /** The search in `GC_push_next_marked_dirty`: clean blocks are passed over. */
    method NextDirtyBlock(h: nat) returns (b: nat)
      requires BlockShape()
      ensures b == 0 ==> forall k :: k in hdrs && h <= k ==> !Touched(hdrs, grungy, k)
      ensures b != 0 ==> h <= b && b in hdrs && Touched(hdrs, grungy, b)
      ensures b != 0 ==> forall k :: k in hdrs && h <= k < b ==> !Touched(hdrs, grungy, k)
    {
      b := NextBlock(h);
      while b != 0 && !Touched(hdrs, grungy, b)
        invariant b != 0 ==> b in hdrs && h <= b
        invariant forall k :: k in hdrs && h <= k && (b == 0 || k < b) ==> !Touched(hdrs, grungy, k)
        decreases if b == 0 then 0 else heapTop + 1 - b
      {
        b := NextBlock(b + hdrs[b].nblks);
      }
    }

    /** The search in `GC_push_next_marked_uncollectable`. */
    method NextUncollectableBlock(h: nat) returns (b: nat)
      requires BlockShape()
      ensures b == 0 ==> forall k :: k in hdrs && h <= k ==> hdrs[k].kind != Uncollectable
      ensures b != 0 ==> h <= b && b in hdrs && hdrs[b].kind == Uncollectable
      ensures b != 0 ==> forall k :: k in hdrs && h <= k < b ==> hdrs[k].kind != Uncollectable
    {
      b := NextBlock(h);
      while b != 0 && hdrs[b].kind != Uncollectable
        invariant b != 0 ==> b in hdrs && h <= b
        invariant forall k :: k in hdrs && h <= k && (b == 0 || k < b) ==> hdrs[k].kind != Uncollectable
        decreases if b == 0 then 0 else heapTop + 1 - b
      {
        b := NextBlock(b + hdrs[b].nblks);
      }
    }

    /** What is new on the stack are marked objects of block `b`. */
    ghost predicate OnlyPushed(stack0: seq<Entry>, b: nat)
      reads this`stack, this`marked
    {
      && stack0 <= stack
      && forall i :: |stack0| <= i < |stack| ==> stack[i].ObjRange? && stack[i].obj in marked && stack[i].obj.blk == b
    }

    ghost predicate HasMark(b: nat)
      reads this`hdrs, this`marked
    {
      b in hdrs && exists o :: o in marked && o.blk == b && o.slot < hdrs[b].nobjs
    }

    /** `GC_push_marked`: pushes every marked object of block `h`. */
    method PushMarked(h: nat, ghost s: set<Obj>)
      requires BlockShape() && Shape() && h in hdrs && |stack| + hdrs[h].nobjs <= stackSize
      modifies this`stack, this`markState, this`stackTooSmall, this`objectsAreMarked
      ensures Shape() && markState == old(markState) && stackTooSmall == old(stackTooSmall)
      ensures BadObjs(fields, marked, stack) <= set o | o in old(BadObjs(fields, marked, stack)) && o.blk != h
      ensures BadSegs(segs, marked, stack) <= old(BadSegs(segs, marked, stack))
      ensures objectsAreMarked || (!old(objectsAreMarked) && stack == old(stack))
      ensures objectsAreMarked == (old(objectsAreMarked) || (hdrs[h].HasDescr() && HasMark(h)))
      ensures OnlyPushed(old(stack), h)
      ensures old(Justified(fields, segs, marked, stack, s)) ==> Justified(fields, segs, marked, stack, s)
    {
      hide Justified, Contents, EntryOk;
      if !hdrs[h].HasDescr() { return; }
      var blockEmpty := forall i :: 0 <= i < hdrs[h].nobjs ==> Obj(h, i) !in marked;
      if blockEmpty {
        assert forall o :: o in marked && o.blk == h ==> o == Obj(h, o.slot);
        return;
      }
      objectsAreMarked := true;
      for i := 0 to hdrs[h].nobjs
        invariant Shape() && markState == old(markState) && stackTooSmall == old(stackTooSmall)
        invariant objectsAreMarked && OnlyPushed(old(stack), h) && |stack| <= old(|stack|) + i
        invariant forall k :: 0 <= k < i && Obj(h, k) in marked ==> ObjRange(Obj(h, k)) in stack
        invariant old(Justified(fields, segs, marked, stack, s)) ==> Justified(fields, segs, marked, stack, s)
      {
        var o := Obj(h, i);
        if o in marked {
          JustifiedMark(fields, segs, marked, stack, s, o);
          PushObj(o, s);
        }
      }
      assert forall x :: x in old(stack) ==> x in stack;
      assert forall o :: o in marked && o.blk == h ==> o == Obj(h, o.slot);
    }

    /** `GC_push_next_marked`: pushes the marked objects of the next block at or above `h`. */
    method PushNextMarked(h: nat, ghost s: set<Obj>) returns (r: nat)
      requires BlockShape() && Shape() && |stack| + MAX_OBJS_PER_BLOCK <= stackSize
      modifies this`stack, this`markState, this`stackTooSmall, this`objectsAreMarked
      ensures Shape() && markState == old(markState) && stackTooSmall == old(stackTooSmall)
      ensures r == 0 ==> stack == old(stack) && forall o :: o in BadObjs(fields, marked, stack) ==> o.blk < h
      ensures r != 0 ==> h < r <= heapTop
      ensures r != 0 ==> exists b: nat :: h <= b < r && OnlyPushed(old(stack), b)
      ensures forall o :: o in BadObjs(fields, marked, stack) ==>
                o in old(BadObjs(fields, marked, stack)) && (r != 0 ==> o.blk < h || r <= o.blk)
      ensures BadSegs(segs, marked, stack) <= old(BadSegs(segs, marked, stack))
      ensures old(objectsAreMarked) ==> objectsAreMarked
      ensures old(Justified(fields, segs, marked, stack, s)) ==> Justified(fields, segs, marked, stack, s)
    {
      var b := NextBlock(h);
      if b == 0 { return 0; }
      PushMarked(b, s);
      r := b + hdrs[b].nblks;
    }

    /** `GC_push_next_marked_dirty`: the same, but clean blocks are passed over. */
    method PushNextMarkedDirty(h: nat, ghost s: set<Obj>) returns (r: nat)
      requires BlockShape() && Shape() && incremental && |stack| + MAX_OBJS_PER_BLOCK <= stackSize
      modifies this`stack, this`markState, this`stackTooSmall, this`objectsAreMarked
      ensures Shape() && markState == old(markState) && stackTooSmall == old(stackTooSmall)
      ensures r == 0 ==> stack == old(stack)
      ensures r != 0 ==> h < r <= heapTop
      ensures r != 0 ==> exists b: nat :: h <= b < r && Touched(hdrs, grungy, b) && OnlyPushed(old(stack), b)
      ensures forall o :: o in BadObjs(fields, marked, stack) ==> o in old(BadObjs(fields, marked, stack))
      ensures forall o :: o in BadObjs(fields, marked, stack) && Touched(hdrs, grungy, o.blk) ==>
                o.blk < h || (r != 0 && r <= o.blk)
      ensures BadSegs(segs, marked, stack) <= old(BadSegs(segs, marked, stack))
      ensures old(Justified(fields, segs, marked, stack, s)) ==> Justified(fields, segs, marked, stack, s)
    {
      var b := NextDirtyBlock(h);
      if b == 0 { return 0; }
      PushMarked(b, s);
      r := b + hdrs[b].nblks;
    }

    /** `GC_push_next_marked_uncollectable`: the same for the next uncollectable block. */
    method PushNextMarkedUncollectable(h: nat, ghost s: set<Obj>) returns (r: nat)
      requires BlockShape() && Shape() && |stack| + MAX_OBJS_PER_BLOCK <= stackSize
      modifies this`stack, this`markState, this`stackTooSmall, this`objectsAreMarked
      ensures Shape() && markState == old(markState) && stackTooSmall == old(stackTooSmall)
      ensures r == 0 ==> stack == old(stack)
      ensures r != 0 ==> h < r <= heapTop
      ensures r != 0 ==> exists b: nat :: h <= b < r && b in hdrs && hdrs[b].kind == Uncollectable && OnlyPushed(old(stack), b)
      ensures forall o :: o in BadObjs(fields, marked, stack) ==> o in old(BadObjs(fields, marked, stack))
      ensures forall o :: o in BadObjs(fields, marked, stack) && o.blk in hdrs && hdrs[o.blk].kind == Uncollectable ==>
                o.blk < h || (r != 0 && r <= o.blk)
      ensures BadSegs(segs, marked, stack) <= old(BadSegs(segs, marked, stack))
      ensures old(Justified(fields, segs, marked, stack, s)) ==> Justified(fields, segs, marked, stack, s)
    {
      var b := NextUncollectableBlock(h);
      if b == 0 { return 0; }
      PushMarked(b, s);
      r := b + hdrs[b].nblks;
    }

    /** `GC_push_all` for one root segment; this push must not overflow the mark stack. */
    method PushAll(g: nat)
      requires Shape() && g < |segs|
      modifies this`stack, this`aborted
      ensures Shape()
      ensures old(|stack|) < stackSize ==> stack == old(stack) + [RootRange(g)] && aborted == old(aborted)
      ensures old(|stack|) == stackSize ==> stack == old(stack) && aborted
    {
      if |stack| >= stackSize {
        aborted := true;  // "Unexpected mark stack overflow"
        return;
      }
      stack := stack + [RootRange(g)];
    }

    /** How many of the first `n` segments have to be pushed: all, or the grungy ones only. */
    ghost function SegsToPush(all: bool, n: nat): (r: nat)
      reads this`grungySegs
    {
      if n == 0 then 0 else SegsToPush(all, n - 1) + if all || n - 1 in grungySegs then 1 else 0
    }

    lemma {:induction false} SegsToPushGrows(all: bool, m: nat, n: nat)
      requires m <= n
      ensures SegsToPush(all, m) <= SegsToPush(all, n) <= SegsToPush(all, m) + (n - m)
      decreases n
    {
      if m < n {
        SegsToPushGrows(all, m, n - 1);
      }
    }

    /**
     `GC_push_roots`: static segments first, then thread stacks and registers, eagerly. It aborts
     if there is no room on the mark stack for the segments.
     */
    method PushRoots(all: bool, ghost s: set<Obj>)
      requires Shape() && !aborted
      modifies this`marked, this`stack, this`markState, this`stackTooSmall, this`aborted
      ensures aborted <==> old(|stack|) + SegsToPush(all, |segs|) > stackSize
      ensures Shape() && old(marked) <= marked
      ensures !aborted ==> StackRootsMarked()
      ensures marked == old(marked) ==> markState == old(markState)
      ensures markState == old(markState) || markState == Invalid
      ensures WishesForMore()
      ensures markState != Invalid ==> BadObjs(fields, marked, stack) <= old(BadObjs(fields, marked, stack))
      ensures markState != Invalid ==> BadSegs(segs, marked, stack) <= old(BadSegs(segs, marked, stack))
      ensures !aborted && markState != Invalid ==> forall g :: g in BadSegs(segs, marked, stack) ==> !all && g !in grungySegs
      ensures old(Justified(fields, segs, marked, stack, s)) && RootTargets() <= s ==>
                Justified(fields, segs, marked, stack, s)
    {
      hide Justified, BadObjs, BadSegs, StackShape;
      PushSegments(all, s);
      if aborted {
        return;
      }
      label L:
      for i := 0 to |stackRoots|
        invariant Shape() && !aborted
        invariant old(marked) <= marked
        invariant forall k :: 0 <= k < i ==> stackRoots[k] in marked
        invariant marked == old(marked) ==> markState == old(markState)
        invariant markState == old(markState) || markState == Invalid
        invariant WishesForMore()
        invariant markState != Invalid ==> BadObjs(fields, marked, stack) <= old@L(BadObjs(fields, marked, stack))
        invariant markState != Invalid ==> BadSegs(segs, marked, stack) <= old@L(BadSegs(segs, marked, stack))
        invariant old@L(Justified(fields, segs, marked, stack, s)) && RootTargets() <= s ==>
                    Justified(fields, segs, marked, stack, s)
      {
        if RootTargets() <= s {
          ReachesSelf(fields, s, stackRoots[i]);
        }
        MarkAndPush(stackRoots[i], s);
      }
    }

    /** The first part of `GC_push_roots`: all static segments, or the grungy ones only. */
    method PushSegments(all: bool, ghost s: set<Obj>)
      requires Shape() && !aborted
      modifies this`stack, this`aborted
      ensures Shape() && (aborted <==> old(|stack|) + SegsToPush(all, |segs|) > stackSize)
      ensures BadObjs(fields, marked, stack) <= old(BadObjs(fields, marked, stack))
      ensures BadSegs(segs, marked, stack) <= old(BadSegs(segs, marked, stack))
      ensures !aborted ==> forall g :: g in BadSegs(segs, marked, stack) ==> !all && g !in grungySegs
      ensures old(Justified(fields, segs, marked, stack, s)) && RootTargets() <= s ==>
                Justified(fields, segs, marked, stack, s)
    {
      for g := 0 to |segs|
        invariant Shape() && !aborted
        invariant old(stack) <= stack && |stack| == old(|stack|) + SegsToPush(all, g)
        invariant forall k :: 0 <= k < g && (all || k in grungySegs) ==> RootRange(k) in stack
        invariant old(Justified(fields, segs, marked, stack, s)) && RootTargets() <= s ==>
                    Justified(fields, segs, marked, stack, s)
      {
        if all || g in grungySegs {
          if RootTargets() <= s {
            forall q | q in segs[g]
              ensures Reaches(fields, s, q)
            {
              assert q in RootTargets();
              ReachesSelf(fields, s, q);
            }
          }
          SegsToPushGrows(all, g + 1, |segs|);
          PushAll(g);
          if aborted {
            assert forall x :: x in old(stack) ==> x in stack;
            return;
          }
        }
      }
      assert forall x :: x in old(stack) ==> x in stack;
    }

    // ---------------------------------------------------------------------------------
    // One step of marking
    // ---------------------------------------------------------------------------------

    /** `alloc_mark_stack`: fails silently if there is no memory; empties the stack anyway. */
    method AllocMarkStack(n: nat, memory: bool)
      requires Shape() && stackSize <= n
      modifies this`stack, this`stackSize, this`stackTooSmall
      ensures Shape() && stack == [] && stackSize == (if memory then n else old(stackSize)) && !stackTooSmall
    {
      stackTooSmall := false;
      if memory {
        stackSize := n;
      }
      stack := [];
    }

    /** The work left over, compared lexicographically: the measure of `GC_mark_some`. */
    twostate predicate MadeProgress()
      requires old(scanPtr <= heapTop) && scanPtr <= heapTop
      reads this
    {
      || Unmarked(fields, marked) < old(Unmarked(fields, marked))
      || (Unmarked(fields, marked) == old(Unmarked(fields, marked)) && Phase() < old(Phase()))
      || (Unmarked(fields, marked) == old(Unmarked(fields, marked)) && Phase() == old(Phase()) && ScanLeft() < old(ScanLeft()))
      || (Unmarked(fields, marked) == old(Unmarked(fields, marked)) && Phase() == old(Phase()) && ScanLeft() == old(ScanLeft())
          && LessOnStack())
    }

    /** What `GC_mark_some` relies on: the invariant, whether or not the world is stopped. */
    ghost predicate Marking()
      reads this
    {
      && BlockShape() && Shape() && FewSegs() && !aborted && MarkInv()
      && (worldStopped ==> dirty == {} && dirtySegs == {})
      && (worldStopped && markState in {RootsPushed, None} ==> StackRootsMarked())
    }

    /** `MARK_FROM_MARK_STACK` as it is used in every phase that may find the stack too full. */
    method MarkFromStack(ghost s: set<Obj>)
      requires Marking() && stack != [] && markState != None
      requires markState == Invalid || markState == PartiallyInvalid ==> objectsAreMarked
      modifies this`marked, this`stack, this`markState, this`stackTooSmall, this`objectsAreMarked
      ensures Marking() && markState != None
      ensures old(marked) <= marked
      ensures MadeProgress() && WishesForMore() && (markState == old(markState) || markState == Invalid)
      ensures old(Justified(fields, segs, marked, stack, s)) ==> Justified(fields, segs, marked, stack, s)
    {
      hide Justified, BadObjs, BadSegs, RootTargets, Touched, BlocksOk, PointersOk, Unmarked, StackRootsMarked;
      MarkFrom(s);
      MarkingLowersUnmarked(fields, old(marked), marked);
    }

    /** `GC_mark_some` in the state in which dirty blocks are pushed. */
    method PushRescuersStep(ghost s: set<Obj>)
      requires Marking() && markState == PushRescuers
      modifies this`marked, this`stack, this`markState, this`stackTooSmall, this`objectsAreMarked, this`scanPtr, this`aborted
      ensures Marking() && markState != None && old(marked) <= marked && MadeProgress()
      ensures old(stackTooSmall) || old(|stack|) > stackSize - INITIAL_MARK_STACK_SIZE / 2 || markState == Invalid ==> stackTooSmall
      // With the stack nearly full, the scan waits.
      ensures if old(|stack|) > stackSize - INITIAL_MARK_STACK_SIZE / 2 then
                scanPtr == old(scanPtr) && markState in {PushRescuers, Invalid}
              else scanPtr != old(scanPtr) || markState != old(markState)
      ensures old(Justified(fields, segs, marked, stack, s)) && RootTargets() <= s ==>
                Justified(fields, segs, marked, stack, s)
    {
      hide Justified, BadObjs, BadSegs, RootTargets, Touched, BlocksOk, PointersOk, Unmarked, StackRootsMarked;
      if |stack| - 1 >= stackSize - INITIAL_MARK_STACK_SIZE / 2 {
        stackTooSmall := true;
        MarkFromStack(s);
      } else {
        scanPtr := PushNextMarkedDirty(scanPtr, s);
        if scanPtr == 0 {
          RootsStep(false, s);
        }
      }
    }

    /** `GC_mark_some` in the state in which uncollectable blocks are pushed. */
    method PushUncollectableStep(ghost s: set<Obj>)
      requires Marking() && markState == PushUncollectable
      modifies this`marked, this`stack, this`markState, this`stackTooSmall, this`objectsAreMarked, this`scanPtr, this`aborted
      ensures Marking() && markState != None && old(marked) <= marked && MadeProgress()
      ensures old(stackTooSmall) || markState == Invalid ==> stackTooSmall
      // With more than a quarter of the stack in use, the scan waits.
      ensures if old(|stack|) - 1 >= stackSize / 4 then scanPtr == old(scanPtr) && markState in {PushUncollectable, Invalid}
              else scanPtr != old(scanPtr) || markState != old(markState)
      ensures old(Justified(fields, segs, marked, stack, s)) && RootTargets() <= s ==>
                Justified(fields, segs, marked, stack, s)
    {
      hide Justified, BadObjs, BadSegs, RootTargets, Touched, BlocksOk, PointersOk, Unmarked, StackRootsMarked;
      if |stack| - 1 >= stackSize / 4 {
        MarkFromStack(s);
      } else {
        scanPtr := PushNextMarkedUncollectable(scanPtr, s);
        if scanPtr == 0 {
          RootsStep(true, s);
        }
      }
    }

    /** The roots are pushed once the heap scan is over, and the next state entered. */
    method RootsStep(all: bool, ghost s: set<Obj>)
      requires BlockShape() && Shape() && FewSegs() && !aborted && |stack| + |segs| <= stackSize
      requires markState in {PushRescuers, PushUncollectable, PartiallyInvalid} && scanPtr == 0
      requires worldStopped ==> dirty == {} && dirtySegs == {}
      requires forall o :: o in BadObjs(fields, marked, stack) ==> Touched(hdrs, dirty, o.blk)
      requires !all ==> BadSegs(segs, marked, stack) <= dirtySegs + grungySegs
      modifies this`marked, this`stack, this`markState, this`stackTooSmall, this`objectsAreMarked, this`aborted
      ensures Marking() && old(marked) <= marked && markState in {RootsPushed, Invalid}
      ensures stackTooSmall == (old(stackTooSmall) || markState == Invalid)
      ensures Unmarked(fields, marked) < old(Unmarked(fields, marked)) ||
              (Unmarked(fields, marked) == old(Unmarked(fields, marked)) && markState == RootsPushed)
      ensures old(Justified(fields, segs, marked, stack, s)) && RootTargets() <= s ==>
                Justified(fields, segs, marked, stack, s)
    {
      hide Justified, BadObjs, BadSegs, RootTargets, Touched, BlocksOk, PointersOk, Unmarked, StackRootsMarked;
      SegsToPushGrows(all, 0, |segs|);
      PushRoots(all, s);
      objectsAreMarked := true;
      if markState != Invalid {
        markState := RootsPushed;
      }
      MarkingLowersUnmarked(fields, old(marked), marked);
    }

    /** As long as only uncollectable blocks have marks, only they can need another look. */
    lemma BadObjsAreUncollectable()
      requires GraphShape() && OnlyUncollectableMarked(hdrs, marked)
      ensures forall o :: o in BadObjs(fields, marked, stack) ==> o.blk in hdrs && hdrs[o.blk].kind == Uncollectable
    {
    }

    /** `GC_mark_some` once the roots have been pushed: marks from the stack, and is done when that is empty. */
    method FinalStep(memory: bool, ghost s: set<Obj>) returns (done: bool)
      requires Marking() && markState == RootsPushed
      modifies this`marked, this`stack, this`markState, this`stackTooSmall, this`objectsAreMarked, this`stackSize
      ensures Marking() && old(marked) <= marked && MadeProgress()
      ensures (done <==> markState == None) && (done <==> old(stack) == []) && (done ==> !stackTooSmall)
      ensures stackSize == if old(MayEnlarge()) && memory then 2 * old(stackSize) else old(stackSize)
      ensures old(Justified(fields, segs, marked, stack, s)) ==> Justified(fields, segs, marked, stack, s)
    {
      hide Justified, BadObjs, BadSegs, RootTargets, Touched, BlocksOk, PointersOk, Unmarked, StackRootsMarked;
      if stack != [] {
        MarkFromStack(s);
        return false;
      }
      markState := None;
      if stackTooSmall {
        AllocMarkStack(2 * stackSize, memory);
      }
      return true;
    }

    /** `GC_mark_some`. `memory` says whether a larger mark stack can be had. */
    method MarkSome(memory: bool, ghost s: set<Obj>) returns (done: bool)
      requires Marking()
      modifies this`marked, this`stack, this`markState, this`stackTooSmall, this`objectsAreMarked,
               this`scanPtr, this`stackSize, this`aborted, this`calls
      ensures Marking() && calls == old(calls) + 1
      ensures old(marked) <= marked
      ensures old(markState) != None ==> (done <==> markState == None)
      ensures old(markState) == None ==> !done && markState == None && marked == old(marked)
      ensures old(markState) != None ==> MadeProgress()
      // The stack is enlarged, memory permitting, if there has been a wish for it, and not otherwise.
      ensures stackSize == if old(MayEnlarge()) && memory then 2 * old(stackSize) else old(stackSize)
      ensures done ==> !stackTooSmall
      ensures old(objectsAreMarked && stack == [] && scanPtr == 0 && markState == Invalid) ==> stackTooSmall == (markState == Invalid)
      ensures old(Justified(fields, segs, marked, stack, s)) && RootTargets() <= s ==>
                Justified(fields, segs, marked, stack, s)
    {
      hide Justified, BadObjs, BadSegs, RootTargets, Touched, BlocksOk, PointersOk, Unmarked, StackRootsMarked;
      done := false;
      calls := calls + 1;
      match markState {
        case None =>
        case PushRescuers => PushRescuersStep(s);
        case PushUncollectable => PushUncollectableStep(s);
        case RootsPushed => done := FinalStep(memory, s);
        case _ => InvalidStep(memory, s);
      }
    }

    /** The mark stack is empty, and a larger one is wished for and can be put in its place. */
    predicate MayEnlarge()
      reads this`stack, this`stackTooSmall, this`markState, this`scanPtr, this`objectsAreMarked
    {
      stackTooSmall && stack == [] && (markState == RootsPushed || (markState == Invalid && objectsAreMarked && scanPtr == 0))
    }

    /** `GC_mark_some` in the two states in which the invariant may not hold. */
    method InvalidStep(memory: bool, ghost s: set<Obj>)
      requires Marking() && markState in {Invalid, PartiallyInvalid}
      modifies this`marked, this`stack, this`markState, this`stackTooSmall, this`objectsAreMarked,
               this`scanPtr, this`stackSize, this`aborted
      ensures Marking() && markState != None && old(marked) <= marked && MadeProgress()
      // The stack is enlarged, memory permitting, if there has been a wish for it, and not otherwise.
      ensures stackSize == if old(MayEnlarge()) && memory then 2 * old(stackSize) else old(stackSize)
      ensures old(objectsAreMarked && stack == [] && scanPtr == 0 && markState == Invalid) ==> stackTooSmall == (markState == Invalid)
      ensures old(Justified(fields, segs, marked, stack, s)) && RootTargets() <= s ==>
                Justified(fields, segs, marked, stack, s)
    {
      hide Justified, BadObjs, BadSegs, RootTargets, Touched, BlocksOk, PointersOk, Unmarked, StackRootsMarked;
      if !objectsAreMarked {
        BadObjsAreUncollectable();
        markState := PushUncollectable;
        return;
      }
      if stack != [] {
        MarkFromStack(s);
        return;
      }
      HeapScanStep(memory, s);
    }

    /** The scan starts over, with a larger mark stack if that has been wished for. */
    method StartHeapScan(memory: bool)
      requires Shape() && stack == []
      modifies this`markState, this`stack, this`stackTooSmall, this`stackSize
      ensures Shape() && stack == [] && markState == PartiallyInvalid && !stackTooSmall
      ensures stackSize == if old(stackTooSmall) && memory then 2 * old(stackSize) else old(stackSize)
    {
      if stackTooSmall {
        AllocMarkStack(2 * stackSize, memory);
      }
      markState := PartiallyInvalid;
    }

    /** The mark stack is empty: the scan of the whole heap goes on, or starts over. */
    method HeapScanStep(memory: bool, ghost s: set<Obj>)
      requires Marking() && markState in {Invalid, PartiallyInvalid} && objectsAreMarked && stack == []
      modifies this`marked, this`stack, this`markState, this`stackTooSmall, this`objectsAreMarked,
               this`scanPtr, this`stackSize, this`aborted
      ensures Marking() && markState != None && old(marked) <= marked && MadeProgress()
      // The stack is enlarged, memory permitting, if there has been a wish for it, and not otherwise.
      ensures stackSize == if old(MayEnlarge()) && memory then 2 * old(stackSize) else old(stackSize)
      ensures old(scanPtr == 0 && markState == Invalid) ==> stackTooSmall == (markState == Invalid)
      ensures old(Justified(fields, segs, marked, stack, s)) && RootTargets() <= s ==>
                Justified(fields, segs, marked, stack, s)
    {
      hide Justified, BadObjs, BadSegs, RootTargets, Touched, BlocksOk, PointersOk, Unmarked, StackRootsMarked;
      if scanPtr == 0 && markState == Invalid {
        StartHeapScan(memory);
      }
      scanPtr := PushNextMarked(scanPtr, s);
      if scanPtr == 0 && markState == PartiallyInvalid {
        RootsStep(true, s);
      }
    }

    // ---------------------------------------------------------------------------------
    // Mark phases
    // ---------------------------------------------------------------------------------

    /** The purpose of a mark phase: no object that a root leads to is left unmarked. */
    ghost predicate ReachableIsMarked()
      reads this`fields, this`segs, this`stackRoots, this`marked
    {
      forall o :: Reaches(fields, RootTargets(), o) ==> o in marked
    }

    /** Marks of uncollectable objects, which a full collection starts from. */
    ghost function UncollectableMarks(): set<Obj>
      reads this`hdrs, this`marked
    {
      set o | o in marked && o.blk in hdrs && hdrs[o.blk].IsUncollectable()
    }

    /** The marks are closed under pointers and contain what the roots point to. */
    ghost predicate Complete()
      reads this`markState, this`stack, this`segs, this`stackRoots, this`marked, this`fields
    {
      markState == None && stack == [] && RootTargets() <= marked && Closed(fields, marked)
    }

    lemma MarkInvAtEnd()
      requires Marking() && markState == None && StackRootsMarked() && dirty == {} && dirtySegs == {}
      ensures Complete()
    {
      assert forall o :: o !in BadObjs(fields, marked, stack) by {
        hide BlocksOk, PointersOk, StackShape;
        assert forall b :: !Touched(hdrs, {}, b);
      }
      forall g, q | 0 <= g < |segs| && q in segs[g]
        ensures q in marked
      {
        assert g !in BadSegs(segs, marked, stack);
      }
      forall p, q | p in marked && p in fields && q in fields[p]
        ensures q in marked
      {
        assert p !in BadObjs(fields, marked, stack);
      }
    }

    lemma CompleteMeansReachableIsMarked()
      requires Complete()
      ensures ReachableIsMarked()
    {
      ClosedContainsReachable(fields, RootTargets(), marked);
    }

    /** A mark phase that started from the marks `s` and completed has marked no garbage. */
    lemma CompleteMeansExact(s: set<Obj>)
      requires Complete() && s <= marked && Justified(fields, segs, marked, stack, s + RootTargets())
      ensures forall o :: o in marked <==> Reaches(fields, s + RootTargets(), o)
    {
      ClosedContainsReachable(fields, s + RootTargets(), marked);
    }

    lemma NoneHasEmptyStack()
      requires MarkInv()
      ensures markState == None ==> stack == []
    {
    }

    /** `GC_invalidate_mark_state`. */
    method InvalidateMarkState()
      requires Shape()
      modifies this`markState, this`stack
      ensures markState == Invalid && stack == [] && Shape()
    {
      markState := Invalid;
      stack := [];
    }

    /** `GC_clear_marks`. */
    method ClearMarks()
      requires BlockShape() && Shape() && stack == []
      modifies this`marked, this`objectsAreMarked, this`markState, this`scanPtr
      ensures Shape() && MarkInv() && markState == Invalid && !objectsAreMarked && scanPtr == 0
      ensures marked == old(UncollectableMarks())
    {
      hide BlockShape, Touched;
      marked := set o | o in marked && o.blk in hdrs && hdrs[o.blk].IsUncollectable();
      objectsAreMarked := false;
      markState := Invalid;
      scanPtr := 0;
    }

    /** `GC_read_dirty`: the dirty bits become the grungy ones, unless nobody will look at them. */
    method ReadDirty(outputUnneeded: bool)
      modifies this`dirty, this`dirtySegs, this`grungy, this`grungySegs
      ensures dirty == {} && dirtySegs == {}
      ensures grungy == if outputUnneeded then old(grungy) else old(dirty)
      ensures grungySegs == if outputUnneeded then old(grungySegs) else old(dirtySegs)
    {
      if !outputUnneeded {
        grungy := dirty;
        grungySegs := dirtySegs;
      }
      dirty := {};
      dirtySegs := {};
    }

    /** `GC_initiate_gc`. */
    method InitiateGc()
      requires BlockShape() && Shape() && FewSegs() && !aborted && MarkInv()
      requires !incremental ==> dirty == {} && dirtySegs == {}
      modifies this`dirty, this`dirtySegs, this`grungy, this`grungySegs, this`markState, this`scanPtr, this`aborted
      ensures aborted <==> old(markState) !in {None, Invalid}
      ensures old(markState) == Invalid || (incremental && old(markState) == None) ==> Marking()
      ensures !aborted ==> markState == (if old(markState) == None then PushRescuers else Invalid) && dirty == {} && dirtySegs == {}
      ensures scanPtr == 0
      ensures grungy == if incremental && old(markState) != Invalid then old(dirty) else old(grungy)
    {
      hide Justified, BadObjs, BadSegs, RootTargets, BlocksOk, PointersOk, Unmarked, StackRootsMarked;
      if incremental {
        ReadDirty(markState == Invalid);
      }
      if markState == None {
        markState := PushRescuers;
      } else if markState != Invalid {
        aborted := true;  // "Unexpected state"
      }
      scanPtr := 0;
    }
  }
}
