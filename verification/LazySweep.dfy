/**
 The sweeper: after a collection, blocks with unmarked objects wait to be swept, one by one, when
 objects of their class are needed. Meanwhile the client allocates and frees, and threads keep
 free lists of their own.
 */
module LazySweep {
  import opened SweepLists
  import opened SweepState

  /** Lists are gone through kind by kind, size by size. */
  predicate EarlierList(id: ListId, kind: nat, size: nat) {
    id.Global? && 1 <= id.gran <= MAXOBJGRANULES && (id.kind < kind || (id.kind == kind && id.gran < size))
  }

  /** What the client, its threads, the sweeper and the marker may do between two collections. */
  datatype Event =
    | Allocate(c: Class, h: nat, memory: bool)
    | AllocateLarge(c: Class, h: nat)
    | AllocateLocal(id: ListId)
    | Refill(id: ListId, h: nat, memory: bool)
    | GiveBackList(from: ListId, to: ListId)
    | Sweeping(c: Class)
    | StartMarking(mayStop: bool, ignoreOld: bool)
    | Marking(s: Slot)
    | Using(s: Slot, first: Ptr, rest: bool)
    | Release(s: Slot)

  datatype Snap = Snap(link: Links, nonzero: set<Slot>, head: Heads, hdrs: Headers, ready: set<nat>, held: set<Slot>,
                       lists: Lists, queued: set<nat>)

  class Sweeper {
    const kinds: seq<KindInfo>
    /** The first words of the objects. */
    var link: Links
    /** Objects with something else than zeros after their first word. */
    var nonzero: set<Slot>
    /** `ok_freelist` of all kinds, and the free lists of the threads. */
    var head: Heads
    var hdrs: Headers
    /** `ok_reclaim_list`, of the kinds in `ready`. */
    var rlist: RLists
    var ready: set<nat>
    var gcNo: nat
    /** The objects that the client has been given and has not freed or lost. */
    var held: set<Slot>
    ghost var lists: Lists
    ghost var home: Homes
    ghost var waiting: map<Class, seq<nat>>
    ghost var queued: set<nat>
    ghost var dropped: set<Slot>
    /** Marked at the last collection, and not on a free list then. */
    ghost var kept: set<Slot>
    /** Freed explicitly since. */
    ghost var freed: set<Slot>
    /** The blocks swept since. */
    ghost var swept: set<nat>

    ghost predicate Valid()
      reads this
    {
      && HeadsOk(head.Keys, kinds) && TablesOk(rlist.Keys, ready, kinds)
      && ListsOk(link, head, lists, home) && QueueOk(hdrs, rlist, waiting, queued)
      && SlotsOk(kinds, hdrs, nonzero, home, held, dropped, queued, kept, freed)
      && swept !! queued
    }

    /** No objects yet; `locals` are the lists that threads will have. */
    constructor (kinds: seq<KindInfo>, locals: set<ListId>)
      requires forall id :: id in locals ==> id.Local? && id.kind < |kinds| && id.Cls().gran <= MAXOBJGRANULES
      ensures Valid() && fresh(this) && this.kinds == kinds && hdrs == map[] && held == {} && ready == {}
      ensures forall id :: id in locals ==> id in head
      ensures forall id :: id in head ==> head[id] == Nil && (id in locals || id.Global?)
    {
      var all := locals;
      var k := 0;
      while k < |kinds|
        invariant k <= |kinds|
        invariant forall id :: id in all <==> id in locals || EarlierList(id, k, 1)
      {
        var g := 1;
        while g <= MAXOBJGRANULES
          invariant 1 <= g <= MAXOBJGRANULES + 1
          invariant forall id :: id in all <==> id in locals || EarlierList(id, k, g)
        {
          all := all + {Global(k, g)};
          g := g + 1;
        }
        k := k + 1;
      }
      this.kinds := kinds;
      link, nonzero, head, hdrs := map[], {}, map id | id in all :: Nil, map[];
      rlist, ready, gcNo := map[], {}, 0;
      lists, home, waiting, queued := map id | id in all :: [], map[], map[], {};
      held, dropped, kept, freed, swept := {}, {}, {}, {}, {};
    }

    // ---------------------------------------------------------------------------------
    // What follows for the client
    // ---------------------------------------------------------------------------------

    /** No slot is lost or there twice: those on lists, held, waiting to be swept and dropped add up. */
    lemma SlotsConserved()
      requires Valid()
      ensures |AllSlots(hdrs)| == |home.Keys| + |held| + |dropped| + |PendingSlots(hdrs, queued)|
    {
      hide HeadsOk, TablesOk, ListsOk, QueueOk, HdrsOk, Clean, UncollectablesMarked, KeptOk;
      ListedAreSlots(hdrs, home);
      hide HomesOk, IsSlot, Marked, AllSlots;
      var pending := PendingSlots(hdrs, queued);
      forall s ensures s in AllSlots(hdrs) <==> s in home.Keys || s in held || s in dropped || s in pending {
        assert IsSlot(hdrs, s) ==> One(s in home) + One(s in held) + One(s in dropped) + One(Pending(hdrs, queued, s)) == 1;
      }
      forall s | s in AllSlots(hdrs)
        ensures One(s in home.Keys) + One(s in held) + One(s in dropped) + One(s in pending) == 1
      {
        assert One(s in home) + One(s in held) + One(s in dropped) + One(Pending(hdrs, queued, s)) == 1;
      }
      SlotsAddUp(AllSlots(hdrs), home.Keys, held, dropped, pending);
    }

    /** Objects of uncollectable kinds are found by every marker, so nothing but `GC_free` ends them. */
    lemma UncollectablesSurvive(marking: Marking)
      requires Valid() && MarkingOk(kinds, hdrs, marking)
      ensures forall s :: s in held && Uncollectable(kinds, hdrs, s) ==> Found(marking, s)
    {
      hide HeadsOk, TablesOk, ListsOk, QueueOk, HdrsOk, HomesOk, Shares, Clean, KeptOk;
    }

    // ---------------------------------------------------------------------------------
    // Sweeping one block
    // ---------------------------------------------------------------------------------

    /** `GC_reclaim_clear`: the unmarked slots of a block, cleared and linked in front of a list. */
    method ReclaimClear(b: nat, n: nat, marks: set<nat>, list0: Ptr, ghost l0: seq<Slot>) returns (list: Ptr)
      requires Chain(link, list0, l0) && forall s :: s in l0 && s.blk == b ==> s.idx in marks
      modifies this`link, this`nonzero
      ensures Chain(link, list, UnmarkedSlots(b, marks, n) + l0)
      ensures nonzero == old(nonzero) - set s | s in UnmarkedSlots(b, marks, n)
      ensures forall s :: s !in UnmarkedSlots(b, marks, n) && s in old(link) ==> s in link && link[s] == old(link[s])
    {
      hide Chain;
      list := list0;
      var i := 0;
      assert UnmarkedSlots(b, marks, 0) + l0 == l0;
      while i < n
        invariant i <= n
        invariant Chain(link, list, UnmarkedSlots(b, marks, i) + l0)
        invariant nonzero == old(nonzero) - set s | s in UnmarkedSlots(b, marks, i)
        invariant forall s :: s !in UnmarkedSlots(b, marks, i) && s in old(link) ==> s in link && link[s] == old(link[s])
      {
        if i !in marks {
          PushUnmarked(b, marks, i, link, list, l0);
          link := link[Slot(b, i) := list];
          list := To(Slot(b, i));
          nonzero := nonzero - {Slot(b, i)};
        }
        i := i + 1;
      }
    }

    /** `GC_reclaim_uninit`: the same, for objects that need not be cleared. */
    method ReclaimUninit(b: nat, n: nat, marks: set<nat>, list0: Ptr, ghost l0: seq<Slot>) returns (list: Ptr)
      requires Chain(link, list0, l0) && forall s :: s in l0 && s.blk == b ==> s.idx in marks
      modifies this`link
      ensures Chain(link, list, UnmarkedSlots(b, marks, n) + l0)
      ensures forall s :: s !in UnmarkedSlots(b, marks, n) && s in old(link) ==> s in link && link[s] == old(link[s])
    {
      hide Chain;
      list := list0;
      var i := 0;
      assert UnmarkedSlots(b, marks, 0) + l0 == l0;
      while i < n
        invariant i <= n
        invariant Chain(link, list, UnmarkedSlots(b, marks, i) + l0)
        invariant forall s :: s !in UnmarkedSlots(b, marks, i) && s in old(link) ==> s in link && link[s] == old(link[s])
      {
        if i !in marks {
          PushUnmarked(b, marks, i, link, list, l0);
          link := link[Slot(b, i) := list];
          list := To(Slot(b, i));
        }
        i := i + 1;
      }
    }

    /** `GC_build_fl`: all slots of a new block, linked in front of a list. */
    method BuildFl(b: nat, n: nat, clear: bool, list0: Ptr, ghost l0: seq<Slot>) returns (list: Ptr)
      requires 0 < n && Chain(link, list0, l0) && forall s :: s in l0 ==> s.blk != b
      modifies this`link, this`nonzero
      ensures Chain(link, list, UnmarkedSlots(b, {}, n) + l0) && list != Nil
      ensures nonzero == if clear then old(nonzero) - set s | s in UnmarkedSlots(b, {}, n) else old(nonzero)
      ensures forall s :: s !in UnmarkedSlots(b, {}, n) && s in old(link) ==> s in link && link[s] == old(link[s])
    {
      hide Chain;
      if clear {
        nonzero := nonzero - set s | s in UnmarkedSlots(b, {}, n);
      }
      assert UnmarkedSlots(b, {}, 0) + l0 == l0;
      PushUnmarked(b, {}, 0, link, list0, l0);
      var prev, i := 0, 1;
      link := link[Slot(b, 0) := list0];
      while i < n
        invariant 1 <= i <= n && prev == i - 1
        invariant nonzero == if clear then old(nonzero) - set s | s in UnmarkedSlots(b, {}, n) else old(nonzero)
        invariant Chain(link, To(Slot(b, prev)), UnmarkedSlots(b, {}, i) + l0)
        invariant forall s :: s !in UnmarkedSlots(b, {}, i) && s in old(link) ==> s in link && link[s] == old(link[s])
      {
        PushUnmarked(b, {}, i, link, To(Slot(b, prev)), l0);
        link := link[Slot(b, i) := To(Slot(b, prev))];
        prev := i;
        i := i + 1;
      }
      list := To(Slot(b, prev));
    }

    /** Clearing objects or not, by what their kind asks for. */
    method Reclaim(b: nat, list0: Ptr, ghost l0: seq<Slot>) returns (list: Ptr)
      requires b in hdrs && hdrs[b].cls.kind < |kinds|
      requires Chain(link, list0, l0) && forall s :: s in l0 && s.blk == b ==> s.idx in hdrs[b].marks
      modifies this`link, this`nonzero
      ensures Chain(link, list, BlockUnmarked(hdrs, b) + l0)
      ensures nonzero == if kinds[hdrs[b].cls.kind].init then old(nonzero) - set s | s in BlockUnmarked(hdrs, b) else old(nonzero)
      ensures forall s :: s !in BlockUnmarked(hdrs, b) && s in old(link) ==> s in link && link[s] == old(link[s])
    {
      hide UnmarkedSlots, Chain;
      var h := hdrs[b];
      if kinds[h.cls.kind].init {
        list := ReclaimClear(b, Objs(h.cls.gran), h.marks, list0, l0);
      } else {
        list := ReclaimUninit(b, Objs(h.cls.gran), h.marks, list0, l0);
      }
    }

    /** `GC_reclaim_generic`: puts the unmarked slots of a block on a list. */
    method Sweep(b: nat, id: ListId)
      requires Valid() && b in hdrs && b !in queued && b !in swept
      requires id in head && id.Cls() == hdrs[b].cls && id.Cls().gran <= MAXOBJGRANULES
      requires forall s :: s in BlockUnmarked(hdrs, b) ==> s in dropped && s !in kept
      modifies this`link, this`nonzero, this`head, this`hdrs, this`lists, this`home, this`dropped, this`swept
      ensures Valid()
      ensures old(id in lists) && lists == old(lists)[id := old(BlockUnmarked(hdrs, b) + lists[id])]
      ensures home == old(HomesPlus(home, BlockUnmarked(hdrs, b), id))
      ensures dropped == old(dropped) - set s | s in old(BlockUnmarked(hdrs, b))
      ensures old(hdrs[b]).cls.kind < |kinds|
      ensures nonzero == if kinds[old(hdrs[b]).cls.kind].init then old(nonzero) - set s | s in old(BlockUnmarked(hdrs, b))
                         else old(nonzero)
      ensures swept == old(swept) + {b} && head.Keys == old(head).Keys
      ensures hdrs == old(hdrs)[b := SweptHdr(old(hdrs[b]), gcNo, kinds[old(hdrs[b]).cls.kind].uncollectable)]
    {
      hide HeadsOk, TablesOk, ListsOk, QueueOk, SlotsOk, HomesPlus, Alike, BlockUnmarked, SweptHdr;
      ghost var news, hdrs0, home0 := BlockUnmarked(hdrs, b), hdrs, home;
      BeforeSweep(b, id);
      ReclaimOnto(b, id);
      var uncollectable := kinds[hdrs[b].cls.kind].uncollectable;
      hdrs := hdrs[b := SweptHdr(hdrs[b], gcNo, uncollectable)];
      SlotsSwept(kinds, hdrs0, old(nonzero), home0, held, dropped, queued, kept, freed, b, gcNo, id, nonzero);
      SweptHdrAlike(hdrs0, b, gcNo, uncollectable);
      QueueAlike(hdrs0, hdrs, rlist, waiting, queued);
      swept, dropped := swept + {b}, dropped - set s | s in news;
    }

    method ReclaimOnto(b: nat, id: ListId)
      requires ListsOk(link, head, lists, home) && id in head && b in hdrs && hdrs[b].cls.kind < |kinds|
      requires NoRepeats(BlockUnmarked(hdrs, b)) && forall s :: s in BlockUnmarked(hdrs, b) ==> s !in home
      requires forall s :: On(home, id, s) && s.blk == b ==> s.idx in hdrs[b].marks
      modifies this`link, this`nonzero, this`head, this`lists, this`home
      ensures ListsOk(link, head, lists, home) && head.Keys == old(head.Keys)
      ensures old(id in lists) && lists == old(lists)[id := BlockUnmarked(hdrs, b) + old(lists[id])]
      ensures home == HomesPlus(old(home), BlockUnmarked(hdrs, b), id)
      ensures nonzero == if kinds[hdrs[b].cls.kind].init then old(nonzero) - set s | s in BlockUnmarked(hdrs, b) else old(nonzero)
    {
      hide ListsOk, HomesPlus, Chain, BlockUnmarked;
      ghost var news := BlockUnmarked(hdrs, b);
      ListAt(link, head, lists, home, id);
      var list := Reclaim(b, head[id], lists[id]);
      Extend(old(link), head, lists, home, link, list, id, news);
      head := head[id := list];
      lists, home := lists[id := news + lists[id]], HomesPlus(home, news, id);
    }

    lemma BeforeSweep(b: nat, id: ListId)
      requires Valid() && b in hdrs && b !in queued && id in head
      requires forall s :: s in BlockUnmarked(hdrs, b) ==> s in dropped
      ensures hdrs[b].cls.kind < |kinds|
      ensures forall s :: On(home, id, s) && s.blk == b ==> s.idx in hdrs[b].marks
      ensures NoRepeats(BlockUnmarked(hdrs, b)) && forall s :: s in BlockUnmarked(hdrs, b) ==> s !in home
    {
      hide HeadsOk, TablesOk, HdrsOk, ListsOk, HomesOk, QueueOk, Shares, Clean, UncollectablesMarked, KeptOk, Chain;
      BlockFacts(hdrs, |kinds|, b);
      ListedAreSlots(hdrs, home);
      SharesTell(hdrs, home, held, dropped, queued, BlockUnmarked(hdrs, b));
      ListAt(link, head, lists, home, id);
    }

    // ---------------------------------------------------------------------------------
    // Sweeping more blocks
    // ---------------------------------------------------------------------------------

    /** Takes the first block off a reclaim list. Its unmarked slots are dropped, unless it is swept. */
    method Dequeue(c: Class) returns (b: nat)
      requires Valid() && c in rlist && rlist[c] != 0
      modifies this`rlist, this`waiting, this`queued, this`dropped
      ensures Valid() && b == old(rlist[c]) && b in old(queued) && queued == old(queued) - {b} && b in hdrs && hdrs[b].cls == c
      ensures forall s :: s in BlockUnmarked(hdrs, b) ==> s in dropped && s !in kept
      ensures dropped == old(dropped) + set s | s in BlockUnmarked(hdrs, b)
      ensures c.gran <= MAXOBJGRANULES && c.kind < |kinds| && rlist.Keys == old(rlist.Keys)
      ensures forall d :: d in rlist && d != c ==> rlist[d] == old(rlist[d])
    {
      hide HeadsOk, ListsOk, QueueOk, SlotsOk, BlockUnmarked;
      b := rlist[c];
      QueueHead(hdrs, rlist, waiting, queued, c);
      Dequeued(hdrs, rlist, waiting, queued, c);
      SlotsDequeued(kinds, hdrs, nonzero, home, held, dropped, queued, kept, freed, b);
      assert rlist[c := hdrs[b].next].Keys == rlist.Keys;
      rlist := rlist[c := hdrs[b].next];
      waiting, queued := waiting[c := waiting[c][1..]], queued - {b};
      dropped := dropped + set s | s in BlockUnmarked(hdrs, b);
    }

    /** Only list `id` has changed. */
    static ghost predicate ListsKept(lists0: Lists, lists: Lists, id: ListId) {
      lists.Keys == lists0.Keys && forall i :: i in lists && i != id ==> lists[i] == lists0[i]
    }

    /** Only the blocks of class `c` have been taken off their queue. */
    static ghost predicate QueuesKept(rlist0: RLists, rlist: RLists, c: Class) {
      rlist.Keys == rlist0.Keys && forall d :: d in rlist && d != c ==> rlist[d] == rlist0[d]
    }

    /** What a sweep of some blocks leaves alone. Every block that has left the queue was swept. */
    twostate predicate OnlySwept(id: ListId)
      reads this
    {
      && queued <= old(queued) && swept == old(swept) + (old(queued) - queued)
      && Alike(old(hdrs), hdrs) && head.Keys == old(head.Keys) && rlist.Keys == old(rlist.Keys)
      && lists.Keys == old(lists.Keys) && ListsKept(old(lists), lists, id) && QueuesKept(old(rlist), rlist, id.Cls())
      && dropped <= old(dropped) && StillWaiting(old(hdrs), hdrs, queued)
      && (id in lists && id in old(lists) ==> GainedAll(old(hdrs), old(queued), queued, old(lists[id]), lists[id], id.Cls()))
    }


    /** Takes the first block off a reclaim list and sweeps it. */
    method SweepNext(c: Class, id: ListId)
      requires Valid() && c in rlist && rlist[c] != 0 && id in head && id.Cls() == c
      modifies this`link, this`nonzero, this`head, this`hdrs, this`lists, this`home, this`dropped, this`swept,
        this`rlist, this`waiting, this`queued
      ensures Valid() && OnlySwept(id) && old(rlist[c] in queued) && queued == old(queued - {rlist[c]})
    {
      hide HeadsOk, TablesOk, ListsOk, QueueOk, SlotsOk, BlockUnmarked, HomesPlus, SweptHdr;
      ListAt(link, head, lists, home, id);
      QueueHead(hdrs, rlist, waiting, queued, c);
      QueuedAreSmall(hdrs, rlist, waiting, queued);
      HeadersOk();
      ghost var queued0, l := queued, lists[id];
      var b := Dequeue(c);
      ghost var hdrs0, u := hdrs, kinds[hdrs[b].cls.kind].uncollectable;
      Sweep(b, id);
      SweptHdrAlike(hdrs0, b, gcNo, u);
      GainedOne(hdrs0, |kinds|, queued0, b, l);
    }

    /** `GC_continue_reclaim`. */
    method ContinueReclaim(c: Class)
      requires Valid() && c.kind < |kinds| && 1 <= c.gran <= MAXOBJGRANULES
      modifies this`link, this`nonzero, this`head, this`hdrs, this`lists, this`home, this`dropped, this`swept,
        this`rlist, this`waiting, this`queued
      ensures Valid() && OnlySwept(Global(c.kind, c.gran))
      ensures Global(c.kind, c.gran) in head
      ensures head[Global(c.kind, c.gran)] != Nil || c !in rlist || rlist[c] == 0
      ensures head[Global(c.kind, c.gran)] == Nil ==> NonePending(old(hdrs), old(queued), c)
      ensures old(Global(c.kind, c.gran) in head)
      ensures old(head[Global(c.kind, c.gran)]) == Nil && NonePending(old(hdrs), old(queued), c) ==>
        head[Global(c.kind, c.gran)] == Nil
      // It sweeps no more than it has to.
      ensures Lazily(old(hdrs), old(queued) - queued)
    {
      hide HeadsOk, TablesOk, ListsOk, QueueOk, SlotsOk, GainedAll, NonePending, Alike, StillWaiting, Lazily, ListsKept, QueuesKept;
      var id := Global(c.kind, c.gran);
      HasList(head.Keys, kinds, c);
      ListAt(link, head, lists, home, id);
      ghost var l0 := lists[id];
      NothingGained(hdrs, queued, l0, c);
      WaitingYet(hdrs, rlist, waiting, queued);
      if c !in rlist {
        if head[id] == Nil {
          NoneListed(id);
          NothingCame(hdrs, queued, l0, c);
        }
        NoneIsLazy(hdrs, queued);
      AllKept(lists, rlist, id);
        return;
      }
      NoneIsLazy(hdrs, queued);
      AllKept(lists, rlist, id);
      while rlist[c] != 0
        invariant Valid() && c in rlist && OnlySwept(id)
        invariant (queued == old(queued) || lists[id] == []) && Lazily(old(hdrs), old(queued) - queued)
        decreases queued
      {
        ghost var hdrs1, queued1, l1, b, lists1, rlist1 := hdrs, queued, lists[id], rlist[c], lists, rlist;
        SweepNext(c, id);
        StillAlike(old(hdrs), hdrs1, hdrs, queued1, queued);
        StillKept(old(lists), lists1, lists, old(rlist), rlist1, rlist, id);
        StillLazy(old(hdrs), old(queued), queued1, l0, l1, c, b);
        GainedMore(old(hdrs), hdrs1, old(queued), queued1, queued, l0, l1, lists[id], c);
        if head[id] != Nil {
          break;
        }
        NoneListed(id);
      }
      if head[id] == Nil {
        NoneListed(id);
        NothingCame(old(hdrs), old(queued), l0, c);
      } else if l0 == [] {
        SomeListed(id);
        SomethingCame(old(hdrs), old(queued), c, id);
      }
    }

    static lemma AllKept(lists: Lists, rlist: RLists, id: ListId)
      ensures ListsKept(lists, lists, id) && QueuesKept(rlist, rlist, id.Cls())
    {
    }

    static lemma StillKept(lists0: Lists, lists1: Lists, lists2: Lists, rlist0: RLists, rlist1: RLists, rlist2: RLists, id: ListId)
      requires ListsKept(lists0, lists1, id) && ListsKept(lists1, lists2, id)
      requires QueuesKept(rlist0, rlist1, id.Cls()) && QueuesKept(rlist1, rlist2, id.Cls())
      ensures ListsKept(lists0, lists2, id) && QueuesKept(rlist0, rlist2, id.Cls())
    {
    }

    lemma NoneIsLazy(hdrs: Headers, queued: set<nat>)
      ensures Lazily(hdrs, queued - queued)
    {
    }

    lemma SomeListed(id: ListId)
      requires Valid() && id in head && head[id] != Nil
      ensures id in lists && lists[id] != []
    {
      hide HeadsOk, TablesOk, QueueOk, SlotsOk, ListsOk;
      ListAt(link, head, lists, home, id);
    }

    lemma SomethingCame(hdrs0: Headers, queued0: set<nat>, c: Class, id: ListId)
      requires id in lists && lists[id] != [] && GainedAll(hdrs0, queued0, queued, [], lists[id], c)
      ensures !NonePending(hdrs0, queued0, c)
    {
      if NonePending(hdrs0, queued0, c) {
        NothingComes(hdrs0, queued0, queued, lists[id], c);
      }
    }

    lemma HeadersOk()
      requires Valid()
      ensures HdrsOk(hdrs, |kinds|)
    {
      hide HeadsOk, TablesOk, ListsOk, QueueOk, HdrsOk, HomesOk, Shares, Clean, UncollectablesMarked, KeptOk;
    }

    /** If nothing came of sweeping all blocks of a class, nothing had been waiting in them. */
    lemma NothingCame(hdrs0: Headers, queued0: set<nat>, l0: seq<Slot>, c: Class)
      requires Valid() && GainedAll(hdrs0, queued0, queued, l0, [], c) && (c !in rlist || rlist[c] == 0)
      requires StillWaiting(hdrs0, hdrs, queued)
      ensures NonePending(hdrs0, queued0, c)
    {
      hide HeadsOk, TablesOk, ListsOk, QueueOk, SlotsOk, IsSlot;
      NoBlockZero();
      QueuesHaveHeads(hdrs, rlist, waiting, queued);
    }

    /** Sweeping some blocks and giving up others. */
    twostate predicate OnlyReclaimed(c: Class, ignoreOld: bool)
      reads this
    {
      && queued <= old(queued) && swept == old(swept) + ToSweep(old(hdrs), old(queued) - queued, ignoreOld, gcNo)
      && StillWaiting(old(hdrs), hdrs, queued)
      && Alike(old(hdrs), hdrs) && head.Keys == old(head.Keys) && rlist.Keys == old(rlist.Keys)
      && QueuesKept(old(rlist), rlist, c)
      && (!ignoreOld ==> dropped <= old(dropped))
    }

    /** One reclaim list of `GC_reclaim_all`; the client may call for a stop at any time. */
    method EmptyReclaimList(c: Class, mayStop: bool, ignoreOld: bool) returns (stopped: bool)
      requires Valid() && c in rlist
      modifies this`link, this`nonzero, this`head, this`hdrs, this`lists, this`home, this`dropped, this`swept,
        this`rlist, this`waiting, this`queued
      ensures Valid() && OnlyReclaimed(c, ignoreOld)
      ensures !stopped ==> c in rlist && rlist[c] == 0
      ensures stopped ==> mayStop
    {
      hide HeadsOk, ListsOk, QueueOk, SlotsOk, ToSweep, Alike, StillWaiting;
      HasList(head.Keys, kinds, c);
      SweepNone(hdrs, queued, ignoreOld, gcNo);
      WaitingYet(hdrs, rlist, waiting, queued);
      while rlist[c] != 0
        invariant Valid() && c in rlist && OnlyReclaimed(c, ignoreOld)
        decreases queued
      {
        var stopNow: bool := *;
        if mayStop && stopNow {
          return true;
        }
        ghost var hdrs1, queued1, swept1 := hdrs, queued, swept;
        ReclaimOrGiveUp(c, ignoreOld);
        StillAlike(old(hdrs), hdrs1, hdrs, queued1, queued);
        SweepMore(old(hdrs), hdrs1, old(queued), queued1, queued, ignoreOld, gcNo, old(swept), swept1, swept);
      }
      stopped := false;
    }

    method ReclaimOrGiveUp(c: Class, ignoreOld: bool)
      requires Valid() && c in rlist && rlist[c] != 0
      modifies this`link, this`nonzero, this`head, this`hdrs, this`lists, this`home, this`dropped, this`swept,
        this`rlist, this`waiting, this`queued
      ensures Valid() && OnlyReclaimed(c, ignoreOld) && queued < old(queued)
    {
      hide HeadsOk, ListsOk, QueueOk, SlotsOk, BlockUnmarked;
      HasList(head.Keys, kinds, c);
      QueueHead(hdrs, rlist, waiting, queued, c);
      QueuedAreSmall(hdrs, rlist, waiting, queued);
      assert queued - (queued - {rlist[c]}) == {rlist[c]};
      if !ignoreOld || hdrs[rlist[c]].lastReclaimed + 1 == gcNo {
        SweepNext(c, Global(c.kind, c.gran));
      } else {
        var givenUp := Dequeue(c);
      }
    }

    twostate predicate Reclaimed(ignoreOld: bool)
      reads this
    {
      && queued <= old(queued) && swept == old(swept) + ToSweep(old(hdrs), old(queued) - queued, ignoreOld, gcNo)
      && StillWaiting(old(hdrs), hdrs, queued)
      && Alike(old(hdrs), hdrs) && head.Keys == old(head.Keys) && rlist.Keys == old(rlist.Keys)
      && (!ignoreOld ==> dropped <= old(dropped))
    }

    /** The reclaim lists for smaller kinds, or for this kind and smaller sizes, are empty. */
    ghost predicate EmptyBefore(kind: nat, gran: nat)
      reads this`rlist
    {
      EmptyUpTo(rlist, kind, gran)
    }

    static ghost predicate EmptyUpTo(rlist: RLists, kind: nat, gran: nat) {
      forall c :: c in rlist && (c.kind < kind || (c.kind == kind && c.gran < gran)) ==> rlist[c] == 0
    }

    static lemma NextEmpty(rlist0: RLists, rlist: RLists, kind: nat, gran: nat)
      requires EmptyUpTo(rlist0, kind, gran) && QueuesKept(rlist0, rlist, Class(kind, gran))
      requires Class(kind, gran) in rlist && rlist[Class(kind, gran)] == 0
      ensures EmptyUpTo(rlist, kind, gran + 1)
    {
      forall c | c in rlist && (c.kind < kind || (c.kind == kind && c.gran < gran + 1)) ensures rlist[c] == 0 {
        assert c != Class(kind, gran) ==> c in rlist0;
      }
    }

    method EmptyReclaimLists(kind: nat, mayStop: bool, ignoreOld: bool) returns (stopped: bool)
      requires Valid() && kind in ready && EmptyBefore(kind, 1)
      modifies this`link, this`nonzero, this`head, this`hdrs, this`lists, this`home, this`dropped, this`swept,
        this`rlist, this`waiting, this`queued
      ensures Valid() && Reclaimed(ignoreOld)
      ensures !stopped ==> EmptyBefore(kind + 1, 1)
      ensures stopped ==> mayStop
    {
      hide HeadsOk, ListsOk, QueueOk, SlotsOk, ToSweep, Alike, StillWaiting, EmptyUpTo, QueuesKept;
      SweepNone(hdrs, queued, ignoreOld, gcNo);
      WaitingYet(hdrs, rlist, waiting, queued);
      var sz := 1;
      while sz <= MAXOBJGRANULES
        invariant 1 <= sz <= MAXOBJGRANULES + 1
        invariant Valid() && Reclaimed(ignoreOld) && EmptyBefore(kind, sz)
      {
        ghost var hdrs1, queued1, swept1, rlist1 := hdrs, queued, swept, rlist;
        stopped := EmptyReclaimList(Class(kind, sz), mayStop, ignoreOld);
        StillAlike(old(hdrs), hdrs1, hdrs, queued1, queued);
        SweepMore(old(hdrs), hdrs1, old(queued), queued1, queued, ignoreOld, gcNo, old(swept), swept1, swept);
        if stopped {
          return;
        }
        NextEmpty(rlist1, rlist, kind, sz);
        sz := sz + 1;
      }
      SizesEmpty(kind);
      stopped := false;
    }

    lemma SizesEmpty(kind: nat)
      requires TablesOk(rlist.Keys, ready, kinds) && EmptyUpTo(rlist, kind, MAXOBJGRANULES + 1)
      ensures EmptyUpTo(rlist, kind + 1, 1)
    {
      TablesInRange(rlist.Keys, ready, kinds);
    }

    /** `GC_reclaim_all`: all waiting blocks are swept, or with `ignoreOld` the long unswept ones given up. */
    method ReclaimAll(mayStop: bool, ignoreOld: bool) returns (finished: bool)
      requires Valid()
      modifies this`link, this`nonzero, this`head, this`hdrs, this`lists, this`home, this`dropped, this`swept,
        this`rlist, this`waiting, this`queued
      ensures Valid() && Reclaimed(ignoreOld)
      ensures finished ==> queued == {}
      ensures !mayStop ==> finished
    {
      hide HeadsOk, TablesOk, ListsOk, QueueOk, SlotsOk, ToSweep, Alike, StillWaiting;
      SweepNone(hdrs, queued, ignoreOld, gcNo);
      WaitingYet(hdrs, rlist, waiting, queued);
      TablesInRange(rlist.Keys, ready, kinds);
      var kind := 0;
      while kind < |kinds|
        invariant Valid() && Reclaimed(ignoreOld)
        invariant EmptyBefore(kind, 1)
      {
        if kind in ready {
          ghost var hdrs1, queued1, swept1 := hdrs, queued, swept;
          var stopped := EmptyReclaimLists(kind, mayStop, ignoreOld);
          StillAlike(old(hdrs), hdrs1, hdrs, queued1, queued);
          SweepMore(old(hdrs), hdrs1, old(queued), queued1, queued, ignoreOld, gcNo, old(swept), swept1, swept);
          if stopped {
            return false;
          }
        } else {
          NoTable(rlist.Keys, ready, kinds, kind);
          TablesInRange(rlist.Keys, ready, kinds);
        }
        kind := kind + 1;
      }
      finished := true;
      TablesInRange(rlist.Keys, ready, kinds);
      NoBlockZero();
      NothingQueued(hdrs, rlist, waiting, queued);
    }

    lemma NoBlockZero()
      requires Valid()
      ensures 0 !in hdrs
    {
      hide HeadsOk, TablesOk, ListsOk, QueueOk, HomesOk, Shares, Clean, UncollectablesMarked, KeptOk, HdrOk;
    }

    // ---------------------------------------------------------------------------------
    // Allocating
    // ---------------------------------------------------------------------------------

    /** Takes the first slot off a list for the client; its link is cleared if asked for. */
    method Take(id: ListId, clearLink: bool) returns (s: Slot)
      requires Valid() && id in head && head[id] != Nil
      modifies this`link, this`head, this`lists, this`home, this`held
      ensures Valid() && head.Keys == old(head.Keys)
      ensures Fits(hdrs, s, id) && s !in old(held) && held == old(held) + {s}
      ensures s !in kept || s in freed
      ensures old(id in lists && lists[id] != []) && s == old(lists[id])[0] && lists == old(lists)[id := old(lists[id])[1..]]
      ensures To(s) == old(head[id])
      ensures id.Cls().kind < |kinds| && (kinds[id.Cls().kind].init ==> s !in nonzero)
      ensures s in link && (clearLink ==> link[s] == Nil)
    {
      hide HeadsOk, TablesOk, ListsOk, QueueOk, SlotsOk, Fits;
      FirstOfList(link, head, lists, home, id);
      SlotsAllocated(kinds, hdrs, nonzero, home, held, dropped, queued, kept, freed, head[id].slot);
      NotKept(head[id].slot);
      s := TakeOff(id, clearLink);
      held := held + {s};
    }

    method TakeOff(id: ListId, clearLink: bool) returns (s: Slot)
      requires ListsOk(link, head, lists, home) && id in head && head[id] != Nil
      modifies this`link, this`head, this`lists, this`home
      ensures ListsOk(link, head, lists, home) && head.Keys == old(head.Keys) && To(s) == old(head[id])
      ensures old(id in lists && lists[id] != []) && s == old(lists[id])[0] && lists == old(lists)[id := old(lists[id])[1..]]
      ensures home == old(home) - {s}
      ensures s in link && (clearLink ==> link[s] == Nil)
    {
      hide ListsOk;
      FirstOfList(link, head, lists, home, id);
      s := head[id].slot;
      var next := link[s];
      Pop(link, head, lists, home, id, if clearLink then Nil else next);
      assert head[id := next].Keys == head.Keys;
      head := head[id := next];
      if clearLink {
        link := link[s := Nil];
      } else {
        assert link[s := next] == link;
      }
      lists, home := lists[id := lists[id][1..]], home - {s};
    }

    lemma NotKept(s: Slot)
      requires Valid() && s in home
      ensures s !in kept || s in freed
    {
      hide HeadsOk, TablesOk, ListsOk, QueueOk, HdrsOk, Shares, Clean, UncollectablesMarked, HomesOk;
    }

    /** `GC_new_hblk` and its like: all slots of a new block, in front of a list. */
    method NewBlock(h: nat, id: ListId)
      requires Valid() && id in head && h != 0 && h !in hdrs
      modifies this`link, this`nonzero, this`head, this`hdrs, this`lists, this`home
      ensures Valid() && head.Keys == old(head.Keys) && head[id] != Nil
      ensures id.Cls().kind < |kinds| && hdrs == old(hdrs)[h := NewHdr(id.Cls(), kinds[id.Cls().kind].uncollectable)]
      ensures old(id in lists) && lists == old(lists)[id := UnmarkedSlots(h, {}, Objs(id.Cls().gran)) + old(lists[id])]
    {
      hide TablesOk, ListsOk, QueueOk, SlotsOk, HomesPlus, UnmarkedSlots, NewHdr, Objs;
      var c := id.Cls();
      NothingThereYet(h);
      ghost var home0 := home;
      BuildOnto(h, id);
      QueueNewBlock(hdrs, rlist, waiting, queued, h, NewHdr(c, kinds[c.kind].uncollectable));
      SlotsNewBlock(kinds, hdrs, old(nonzero), home0, held, dropped, queued, kept, freed, h, id, nonzero);
      hdrs := hdrs[h := NewHdr(c, kinds[c.kind].uncollectable)];
    }

    method BuildOnto(h: nat, id: ListId)
      requires ListsOk(link, head, lists, home) && id in head && id.Cls().kind < |kinds| && 1 <= id.Cls().gran <= MAXOBJGRANULES
      requires forall s :: s in home ==> s.blk != h
      modifies this`link, this`nonzero, this`head, this`lists, this`home
      ensures ListsOk(link, head, lists, home) && head.Keys == old(head.Keys) && head[id] != Nil
      ensures var news := UnmarkedSlots(h, {}, Objs(id.Cls().gran));
        && old(id in lists) && lists == old(lists)[id := news + old(lists[id])]
        && home == HomesPlus(old(home), news, id) && nonzero <= old(nonzero)
        && (kinds[id.Cls().kind].init ==> forall s :: s in news ==> s !in nonzero)
    {
      hide ListsOk, HomesPlus, Chain, UnmarkedSlots;
      var c := id.Cls();
      ghost var news := UnmarkedSlots(h, {}, Objs(c.gran));
      ListAt(link, head, lists, home, id);
      UnmarkedMembers(h, {}, Objs(c.gran));
      var list := BuildFl(h, Objs(c.gran), kinds[c.kind].init, head[id], lists[id]);
      Extend(old(link), head, lists, home, link, list, id, news);
      assert head[id := list].Keys == head.Keys;
      head := head[id := list];
      lists, home := lists[id := news + lists[id]], HomesPlus(home, news, id);
    }

    lemma NothingThereYet(h: nat)
      requires Valid() && h !in hdrs
      ensures forall s :: s in home ==> s.blk != h
    {
      hide HeadsOk, TablesOk, ListsOk, QueueOk, HdrsOk, Shares, Clean, UncollectablesMarked, KeptOk;
    }

    /** `GC_alloc_reclaim_list`, which fails if there is no memory for it. */
    method AllocReclaimList(kind: nat, memory: bool) returns (ok: bool)
      requires Valid() && kind < |kinds| && kind !in ready
      modifies this`ready, this`rlist, this`waiting
      ensures Valid() && ready == (if ok then old(ready) + {kind} else old(ready)) && ok == memory
      ensures !ok ==> unchanged(this)
    {
      hide HeadsOk, ListsOk, QueueOk, SlotsOk;
      NoTable(rlist.Keys, ready, kinds, kind);
      if !memory {
        return false;
      }
      ok := true;
      var tables, sz := rlist, 1;
      while sz <= MAXOBJGRANULES
        invariant 1 <= sz <= MAXOBJGRANULES + 1
        invariant forall c :: c in tables <==> c in rlist || (c.kind == kind && 1 <= c.gran < sz)
        invariant forall c :: c in tables && c in rlist ==> tables[c] == rlist[c]
        invariant forall c :: c in tables && c !in rlist ==> tables[c] == 0
      {
        tables := tables[Class(kind, sz) := 0];
        sz := sz + 1;
      }
      ghost var waiting' := map c | c in tables :: if c in waiting then waiting[c] else [];
      QueueKeys(hdrs, rlist, waiting, queued);
      QueueNewTable(hdrs, rlist, waiting, queued, tables, waiting');
      rlist, waiting, ready := tables, waiting', ready + {kind};
    }

    lemma NoneOfThisKind(c: Class)
      requires Valid() && c.kind !in ready
      ensures NonePending(hdrs, queued, c)
    {
      hide HeadsOk, ListsOk, QueueOk, SlotsOk;
      NoTable(rlist.Keys, ready, kinds, c.kind);
      NothingGained(hdrs, queued, [], c);
      WaitingYet(hdrs, rlist, waiting, queued);
      NothingCame(hdrs, queued, [], c);
    }

    /** `GC_allocobj`, up to where it would start a collection or expand the heap. */
    method AllocObj(c: Class, h: nat)
      requires Valid() && c.kind < |kinds| && 1 <= c.gran <= MAXOBJGRANULES && h !in hdrs
      modifies this`link, this`nonzero, this`head, this`hdrs, this`lists, this`home, this`dropped, this`swept,
        this`rlist, this`waiting, this`queued
      ensures Valid() && head.Keys == old(head.Keys) && dropped <= old(dropped)
      ensures forall id :: id in old(lists) && id != Global(c.kind, c.gran) ==> id in lists && lists[id] == old(lists[id])
      ensures Global(c.kind, c.gran) in head
      ensures old(Global(c.kind, c.gran) in head)
      ensures old(head[Global(c.kind, c.gran)]) == Nil ==>
        (head[Global(c.kind, c.gran)] == Nil <==> h == 0 && NonePending(old(hdrs), old(queued), c))
      // A block is added only if sweeping has not been enough.
      ensures old(head[Global(c.kind, c.gran)]) == Nil ==>
        hdrs.Keys == old(hdrs.Keys) + if h != 0 && NonePending(old(hdrs), old(queued), c) then {h} else {}
    {
      hide HeadsOk, ListsOk, QueueOk, SlotsOk, UnmarkedSlots, NewHdr, NonePending, GainedAll, StillWaiting, Lazily;
      var id := Global(c.kind, c.gran);
      ContinueReclaim(c);
      if head[id] == Nil && h != 0 {
        NewBlock(h, id);
      }
    }

    /** Nothing of the class is on the list or waits to be swept. */
    static ghost predicate NeedsBlock(head: Heads, hdrs: Headers, queued: set<nat>, c: Class) {
      Global(c.kind, c.gran) in head && head[Global(c.kind, c.gran)] == Nil && NonePending(hdrs, queued, c)
    }

    /**
     The part of `GC_generic_malloc_inner` for small objects. A block to add is at `h`, if it can be
     had; `memory` says whether there is some for reclaim lists.
     */
    method Malloc(c: Class, h: nat, memory: bool) returns (p: Ptr)
      requires Valid() && c.kind < |kinds| && 1 <= c.gran <= MAXOBJGRANULES && h !in hdrs
      modifies this`link, this`nonzero, this`head, this`hdrs, this`lists, this`home, this`dropped, this`swept,
        this`rlist, this`waiting, this`queued, this`ready, this`held
      ensures Valid() && head.Keys == old(head.Keys) && dropped <= old(dropped)
      ensures p == Nil ==> held == old(held)
      // It fails just if nothing of the class is free or waits to be swept and no block can be added,
      // or if nothing is free and there is no memory for reclaim lists.
      ensures old(Global(c.kind, c.gran) in head)
      ensures p == Nil <==>
        && old(head[Global(c.kind, c.gran)]) == Nil
        && ((c.kind !in old(ready) && !memory) || (h == 0 && NonePending(old(hdrs), old(queued), c)))
      ensures p == Nil ==> NonePending(old(hdrs), old(queued), c)
      ensures p == Nil && c.kind !in old(ready) && !memory ==> unchanged(this)
      ensures hdrs.Keys == old(hdrs.Keys) + if NeedsBlock(old(head), old(hdrs), old(queued), c) && h != 0 && p != Nil then {h} else {}
      ensures ready == if old(head[Global(c.kind, c.gran)]) == Nil && memory then old(ready) + {c.kind} else old(ready)
      // What is on the list is taken first, and nothing else happens then.
      ensures old(head[Global(c.kind, c.gran)]) != Nil ==>
        p == old(head[Global(c.kind, c.gran)]) && hdrs == old(hdrs) && queued == old(queued)
      // Nobody holds what is handed out, and it was not marked at the last collection, unless it was freed since.
      ensures p.To? ==> p.slot !in old(held) && held == old(held) + {p.slot} && (p.slot !in kept || p.slot in freed)
      // It is of the kind and size asked for, and clear if it should be.
      ensures p.To? ==> Fits(hdrs, p.slot, Global(c.kind, c.gran))
      ensures p.To? ==> p.slot in link && link[p.slot] == Nil && (kinds[c.kind].init ==> p.slot !in nonzero)
      ensures forall id :: id in old(lists) && id != Global(c.kind, c.gran) ==> id in lists && lists[id] == old(lists[id])
    {
      hide HeadsOk, TablesOk, ListsOk, QueueOk, SlotsOk, Fits, NonePending;
      var id := Global(c.kind, c.gran);
      HasList(head.Keys, kinds, c);
      if head[id] == Nil {
        if c.kind !in ready {
          NoneOfThisKind(c);
          var ok := AllocReclaimList(c.kind, memory);
          if !ok {
            return Nil;
          }
        }
        AllocObj(c, h);
        if head[id] == Nil {
          return Nil;
        }
      }
      var s := Take(id, true);
      p := To(s);
    }

    // ---------------------------------------------------------------------------------
    // Freeing
    // ---------------------------------------------------------------------------------

    /** Puts a slot that nobody else has on a list. */
    method PutOn(s: Slot, id: ListId, clear: bool)
      requires Valid() && s in held && id in head && Fits(hdrs, s, id) && (s !in kept || s in freed)
      requires id.Cls().kind < |kinds| && kinds[id.Cls().kind].init && !clear ==> s !in nonzero
      modifies this`link, this`head, this`nonzero, this`lists, this`home, this`held
      ensures Valid() && held == old(held) - {s} && head.Keys == old(head.Keys) && head[id] == To(s)
      ensures old(id in lists) && lists == old(lists)[id := [s] + old(lists[id])]
      ensures nonzero == if clear then old(nonzero) - {s} else old(nonzero)
    {
      hide TablesOk, ListsOk, QueueOk, SlotsOk, Fits, HomesPlus, Chain;
      if clear {
        nonzero := nonzero - {s};
      }
      SlotsFreed(kinds, hdrs, old(nonzero), home, held, dropped, queued, kept, freed, s, id, nonzero);
      PutFirst(s, id);
      held := held - {s};
    }

    method PutFirst(s: Slot, id: ListId)
      requires ListsOk(link, head, lists, home) && id in head && s !in home
      modifies this`link, this`head, this`lists, this`home
      ensures ListsOk(link, head, lists, home) && head.Keys == old(head.Keys) && head[id] == To(s)
      ensures old(id in lists) && lists == old(lists)[id := [s] + old(lists[id])]
      ensures home == HomesPlus(old(home), [s], id)
    {
      hide ListsOk, HomesPlus, Chain;
      ListAt(link, head, lists, home, id);
      ChainPush(link, head[id], lists[id], s);
      Extend(link, head, lists, home, link[s := head[id]], To(s), id, [s]);
      link := link[s := head[id]];
      assert head[id := To(s)].Keys == head.Keys;
      head := head[id := To(s)];
      lists, home := lists[id := [s] + lists[id]], HomesPlus(home, [s], id);
    }

    /** `GC_free`. The mark bit stays as it is. */
    method Free(s: Slot)
      requires Valid() && s in held
      modifies this`link, this`head, this`hdrs, this`nonzero, this`lists, this`home, this`held, this`freed
      ensures Valid() && held == old(held) - {s} && freed == old(freed) + {s} && head.Keys == old(head.Keys)
      ensures old(s.blk in hdrs)
      ensures var c := old(hdrs[s.blk]).cls; var id := Global(c.kind, c.gran);
        if c.gran <= MAXOBJGRANULES then
          hdrs == old(hdrs) && old(id in lists) && lists == old(lists)[id := [s] + old(lists[id])] && id in head && head[id] == To(s)
        else
          hdrs == old(hdrs) - {s.blk} && lists == old(lists)
    {
      hide TablesOk, ListsOk, QueueOk, SlotsOk;
      HeldFacts(s);
      var c := hdrs[s.blk].cls;
      if c.gran <= MAXOBJGRANULES {
        SlotsMoreFreed(kinds, hdrs, nonzero, home, held, dropped, queued, kept, freed, s);
        freed := freed + {s};
        PutOn(s, Global(c.kind, c.gran), kinds[c.kind].init);
      } else {
        QueuedAreSmall(hdrs, rlist, waiting, queued);
        SlotsBlockGone(kinds, hdrs, nonzero, home, held, dropped, queued, kept, freed, s.blk, s);
        QueueBlockGone(hdrs, rlist, waiting, queued, s.blk);
        hdrs := hdrs - {s.blk};
        held, freed := held - {s}, freed + {s};
      }
    }

    lemma HeldFacts(s: Slot)
      requires Valid() && s in held
      ensures IsSlot(hdrs, s) && HdrOk(hdrs[s.blk], |kinds|)
    {
      hide HeadsOk, TablesOk, ListsOk, QueueOk, HomesOk, Clean, UncollectablesMarked, KeptOk;
    }

    // ---------------------------------------------------------------------------------
    // Threads
    // ---------------------------------------------------------------------------------

    /** The fast path of allocation from a free list of the thread; without the lock. */
    method LocalMalloc(id: ListId) returns (p: Ptr)
      requires Valid() && id in head && id.Local?
      modifies this`link, this`head, this`lists, this`home, this`held
      ensures Valid() && head.Keys == old(head.Keys)
      ensures p == old(head[id]) && (p == Nil ==> unchanged(this))
      ensures p.To? ==> p.slot !in old(held) && held == old(held) + {p.slot} && (p.slot !in kept || p.slot in freed)
      ensures p.To? ==> Fits(hdrs, p.slot, id)
      ensures p.To? ==> old(id in lists && lists[id] != []) && lists == old(lists)[id := old(lists[id])[1..]]
      ensures p.To? && id.kind != PTRFREE ==> p.slot in link && link[p.slot] == Nil
      ensures id.kind < |kinds| && (p.To? && kinds[id.kind].init ==> p.slot !in nonzero)
    {
      hide HeadsOk, TablesOk, ListsOk, QueueOk, SlotsOk, Fits;
      ListsInRange(head.Keys, kinds, id);
      if head[id] == Nil {
        return Nil;
      }
      FirstOfList(link, head, lists, home, id);
      var s := Take(id, id.kind != PTRFREE);
      p := To(s);
    }

    /** `GC_generic_malloc_many`: fills an empty list of a thread. A block to add is at `h`, if it can be had. */
    method MallocMany(id: ListId, h: nat, memory: bool)
      requires Valid() && id in head && id.Local? && head[id] == Nil && h !in hdrs
      modifies this`link, this`nonzero, this`head, this`hdrs, this`lists, this`home, this`dropped, this`swept,
        this`rlist, this`waiting, this`queued, this`ready, this`held
      ensures Valid() && head.Keys == old(head.Keys) && held == old(held) && dropped <= old(dropped)
      // The list stays empty just if nothing of the class is free or waits to be swept and no block can be added.
      ensures old(Global(id.Cls().kind, id.Cls().gran) in head)
      ensures head[id] == Nil <==>
        && h == 0 && old(head[Global(id.Cls().kind, id.Cls().gran)]) == Nil
        && NonePending(old(hdrs), old(queued), id.Cls())
      ensures ready == if head[id] == Nil && memory then old(ready) + {id.kind} else old(ready)
      ensures hdrs.Keys == old(hdrs.Keys) + if NeedsBlock(old(head), old(hdrs), old(queued), id.Cls()) && h != 0 then {h} else {}
      ensures var c := id.Cls();
        forall i :: i in old(lists) && i != id && i != Global(c.kind, c.gran) ==> i in lists && lists[i] == old(lists[i])
    {
      hide HeadsOk, TablesOk, ListsOk, QueueOk, SlotsOk, UnmarkedSlots, NewHdr, NonePending, GainedAll, StillWaiting, Lazily;
      var c := id.Cls();
      ListsInRange(head.Keys, kinds, id);
      HasList(head.Keys, kinds, c);
      var global := Global(c.kind, c.gran);
      ReturnFacts(global, id);
      SweepOnto(id);
      if head[id] != Nil {
        return;
      }
      if head[global] != Nil {
        ghost var n := TakePrefix(global, id);
      } else if h != 0 {
        NoneListed(global);
        NewBlock(h, id);
      } else {
        NoneListed(global);
        MallocOne(id, memory);
      }
    }

    /** Sweeps blocks onto a list until it has something. */
    method SweepOnto(id: ListId)
      requires Valid() && id in head && head[id] == Nil
      modifies this`link, this`nonzero, this`head, this`hdrs, this`lists, this`home, this`dropped, this`swept,
        this`rlist, this`waiting, this`queued
      ensures Valid() && OnlySwept(id) && Lazily(old(hdrs), old(queued) - queued)
      ensures head[id] == Nil <==> NonePending(old(hdrs), old(queued), id.Cls())
      ensures head[id] == Nil ==> NonePending(hdrs, queued, id.Cls())
    {
      hide HeadsOk, TablesOk, ListsOk, QueueOk, SlotsOk, GainedAll, NonePending, StillWaiting, Alike, Lazily, ListsKept, QueuesKept;
      var c := id.Cls();
      ListAt(link, head, lists, home, id);
      ghost var l0 := lists[id];
      NothingGained(hdrs, queued, l0, c);
      WaitingYet(hdrs, rlist, waiting, queued);
      NoneListed(id);
      NoneIsLazy(hdrs, queued);
      AllKept(lists, rlist, id);
      if c in rlist {
        while rlist[c] != 0 && head[id] == Nil
          invariant Valid() && c in rlist && OnlySwept(id) && Lazily(old(hdrs), old(queued) - queued)
          decreases queued
        {
          ghost var hdrs1, queued1, l1, b, lists1, rlist1 := hdrs, queued, lists[id], rlist[c], lists, rlist;
          NoneListed(id);
          SweepNext(c, id);
          StillAlike(old(hdrs), hdrs1, hdrs, queued1, queued);
          StillKept(old(lists), lists1, lists, old(rlist), rlist1, rlist, id);
          StillLazy(old(hdrs), old(queued), queued1, l0, l1, c, b);
          GainedMore(old(hdrs), hdrs1, old(queued), queued1, queued, l0, l1, lists[id], c);
        }
      }
      if head[id] == Nil {
        NoneListed(id);
        NothingCame(old(hdrs), old(queued), l0, c);
        NothingGained(hdrs, queued, [], c);
        WaitingYet(hdrs, rlist, waiting, queued);
        NothingCame(hdrs, queued, [], c);
      } else {
        SomeListed(id);
        SomethingCame(old(hdrs), old(queued), c, id);
      }
    }

    method MallocOne(id: ListId, memory: bool)
      requires Valid() && id in head && id.Cls().kind < |kinds| && 1 <= id.Cls().gran <= MAXOBJGRANULES && 0 !in hdrs
      requires id.Local? && head[id] == Nil
      modifies this`link, this`nonzero, this`head, this`hdrs, this`lists, this`home, this`dropped, this`swept,
        this`rlist, this`waiting, this`queued, this`ready, this`held
      ensures Valid() && head.Keys == old(head.Keys) && held == old(held) && dropped <= old(dropped)
      ensures old(Global(id.Cls().kind, id.Cls().gran) in head)
      ensures hdrs.Keys == old(hdrs.Keys)
      ensures old(head[Global(id.Cls().kind, id.Cls().gran)]) == Nil && NonePending(old(hdrs), old(queued), id.Cls()) ==>
        head[id] == Nil && ready == if memory then old(ready) + {id.Cls().kind} else old(ready)
      ensures var c := id.Cls();
        forall i :: i in old(lists) && i != id && i != Global(c.kind, c.gran) ==> i in lists && lists[i] == old(lists[i])
    {
      hide HeadsOk, TablesOk, ListsOk, QueueOk, SlotsOk, NonePending;
      ReturnFacts(id, id);
      var p := Malloc(id.Cls(), 0, memory);
      if p.To? {
        PutOn(p.slot, id, false);
      } else {
        ReturnFacts(id, id);
      }
    }

    /** The first `n` objects of a list fill a block, and fewer would not, or they are all there are. */
    static ghost predicate AboutABlock(n: nat, gran: nat, len: nat) {
      (n == len || n * gran >= HBLK_GRANULES) && (n > 1 ==> (n - 1) * gran < HBLK_GRANULES)
    }

    /** Moves slots worth about a block from the front of a list to an empty one. */
    method TakePrefix(from: ListId, to: ListId) returns (ghost n: nat)
      requires Valid() && from in head && to in head && from != to && from.Cls() == to.Cls()
      requires head[from] != Nil && head[to] == Nil
      modifies this`link, this`head, this`lists, this`home
      ensures Valid() && head.Keys == old(head.Keys) && head[to] == old(head[from])
      ensures old(from in lists && to in lists) && 0 < n <= |old(lists[from])|
      ensures lists == old(lists)[from := old(lists[from])[n..]][to := old(lists[from])[..n]]
      ensures AboutABlock(n, from.Cls().gran, |old(lists[from])|)
    {
      hide HeadsOk, TablesOk, ListsOk, QueueOk, SlotsOk, HomesPlus;
      ReturnFacts(from, to);
      ghost var l, home0 := lists[from], home;
      n := CutPrefix(from, to, l);
      SlotsRehomed(kinds, hdrs, nonzero, home0, held, dropped, queued, kept, freed, l[..n], from, to);
    }

    method CutPrefix(from: ListId, to: ListId, ghost l: seq<Slot>) returns (ghost n: nat)
      requires ListsOk(link, head, lists, home) && from in head && to in head && from != to
      requires from in lists && to in lists && l == lists[from] && l != [] && lists[to] == []
      requires head[from] == To(l[0]) && Chain(link, head[from], l)
      modifies this`link, this`head, this`lists, this`home
      ensures ListsOk(link, head, lists, home) && head.Keys == old(head.Keys) && head[to] == old(head[from])
      ensures 0 < n <= |l| && lists == old(lists)[from := l[n..]][to := l[..n]]
      ensures home == HomesPlus(old(home), l[..n], to)
      ensures AboutABlock(n, from.Cls().gran, |l|)
    {
      hide ListsOk, HomesPlus;
      var op := head[from];
      var p, granules, gran := op.slot, from.Cls().gran, from.Cls().gran;
      n := 1;
      while granules < HBLK_GRANULES && link[p] != Nil
        invariant 0 < n <= |l| && p == l[n - 1] && p in link && link[p] == At(l, n)
        invariant granules == n * gran && (n > 1 ==> (n - 1) * gran < HBLK_GRANULES)
        decreases |l| - n
      {
        p := link[p].slot;
        granules := granules + gran;
        n := n + 1;
      }
      Cut(link, head, lists, home, from, to, n);
      assert head[from := link[p]][to := op].Keys == head.Keys;
      head := head[from := link[p]][to := op];
      link := link[p := Nil];
      lists, home := lists[from := l[n..]][to := l[..n]], HomesPlus(home, l[..n], to);
    }

    /** `return_single_freelist`, and what `return_freelists` does to the list of the thread. */
    method ReturnList(from: ListId, to: ListId)
      requires Valid() && from in head && to in head && from != to && from.Cls() == to.Cls()
      modifies this`link, this`head, this`lists, this`home
      ensures Valid() && head.Keys == old(head.Keys) && head[from] == Nil
      ensures head[to] == if old(head[from]) == Nil then old(head[to]) else old(head[from])
      ensures old(from in lists && to in lists)
      ensures lists == old(lists)[to := old(lists[from]) + old(lists[to])][from := []]
    {
      hide HeadsOk, TablesOk, ListsOk, QueueOk, SlotsOk, HomesPlus;
      ReturnFacts(from, to);
      ghost var l, home0 := lists[from], home;
      if head[from] == Nil {
        assert l + lists[to] == lists[to];
        assert lists[to := l + lists[to]][from := []] == lists;
        return;
      }
      Concatenate(from, to, l);
      SlotsRehomed(kinds, hdrs, nonzero, home0, held, dropped, queued, kept, freed, l, from, to);
    }

    lemma ReturnFacts(from: ListId, to: ListId)
      requires ListsOk(link, head, lists, home) && from in head && to in head
      ensures from in lists && to in lists && head[from] == At(lists[from], 0) && head[to] == At(lists[to], 0)
      ensures Chain(link, head[from], lists[from]) && forall s :: s in lists[from] ==> On(home, from, s)
      ensures head[from] == Nil <==> lists[from] == []
    {
      ListAt(link, head, lists, home, from);
      ListAt(link, head, lists, home, to);
    }

    method Concatenate(from: ListId, to: ListId, ghost l: seq<Slot>)
      requires ListsOk(link, head, lists, home) && from in head && to in head && from != to
      requires from in lists && to in lists && l == lists[from] && l != []
      requires head[from] == At(l, 0) && Chain(link, head[from], l) && head[to] == At(lists[to], 0)
      modifies this`link, this`head, this`lists, this`home
      ensures ListsOk(link, head, lists, home) && head.Keys == old(head.Keys)
      ensures head[from] == Nil && head[to] == old(head[from])
      ensures lists == old(lists)[to := l + old(lists[to])][from := []]
      ensures home == HomesPlus(old(home), l, to)
    {
      hide ListsOk, HomesPlus;
      var fl, gfl := head[from], head[to];
      Join(link, head, lists, home, from, to);
      if gfl != Nil {
        var q := fl.slot;
        ghost var n := 1;
        while link[q] != Nil
          invariant 0 < n <= |l| && q == l[n - 1] && q in link && link[q] == At(l, n)
          decreases |l| - n
        {
          q := link[q].slot;
          n := n + 1;
        }
        link := link[q := gfl];
      } else {
        assert link[l[|l| - 1] := gfl] == link;
      }
      assert head[to := fl][from := Nil].Keys == head.Keys;
      head := head[to := fl][from := Nil];
      lists, home := lists[to := l + lists[to]][from := []], HomesPlus(home, l, to);
    }

    // ---------------------------------------------------------------------------------
    // Large objects, the client, and the marker
    // ---------------------------------------------------------------------------------

    /** The part of `GC_generic_malloc_inner` for large objects, given a block for it. */
    method MallocLarge(c: Class, h: nat) returns (s: Slot)
      requires Valid() && c.kind < |kinds| && c.gran > MAXOBJGRANULES && h != 0 && h !in hdrs
      modifies this`hdrs, this`nonzero, this`held
      ensures Valid() && s == Slot(h, 0) && s !in old(held) && held == old(held) + {s}
      ensures nonzero == if kinds[c.kind].init then old(nonzero) - {s} else old(nonzero)
      ensures hdrs == old(hdrs)[h := NewHdr(c, kinds[c.kind].uncollectable)]
    {
      hide HeadsOk, TablesOk, ListsOk, QueueOk, SlotsOk, NewHdr;
      s := Slot(h, 0);
      if kinds[c.kind].init {
        nonzero := nonzero - {s};
      }
      QueueNewBlock(hdrs, rlist, waiting, queued, h, NewHdr(c, kinds[c.kind].uncollectable));
      SlotsNewLarge(kinds, hdrs, old(nonzero), home, held, dropped, queued, kept, freed, h, c, nonzero);
      hdrs := hdrs[h := NewHdr(c, kinds[c.kind].uncollectable)];
      held := held + {s};
    }

    /** The client writes what it likes to an object it holds. */
    method Write(s: Slot, first: Ptr, rest: bool)
      requires Valid() && s in held
      modifies this`link, this`nonzero
      ensures Valid() && link == old(link)[s := first]
      ensures nonzero == if rest then old(nonzero) + {s} else old(nonzero) - {s}
    {
      hide HeadsOk, TablesOk, ListsOk, QueueOk, SlotsOk;
      nonzero := if rest then nonzero + {s} else nonzero - {s};
      SlotsWritten(kinds, hdrs, old(nonzero), home, held, dropped, queued, kept, freed, s, nonzero);
      FreeLink(link, head, lists, home, s, first);
      link := link[s := first];
    }

    /** The marker marks an object. */
    method SetMark(s: Slot)
      requires Valid() && IsSlot(hdrs, s)
      modifies this`hdrs, this`dropped
      ensures Valid() && Marked(hdrs, s) && (old(s in dropped || Pending(hdrs, queued, s)) <==> s in dropped)
    {
      hide HeadsOk, TablesOk, ListsOk, QueueOk, SlotsOk, Alike;
      SlotsMarked(kinds, hdrs, nonzero, home, held, dropped, queued, kept, freed, s);
      QueueAlike(hdrs, hdrs[s.blk := MarkedHdr(hdrs[s.blk], s.idx)], rlist, waiting, queued);
      dropped := if Pending(hdrs, queued, s) then dropped + {s} else dropped;
      hdrs := hdrs[s.blk := MarkedHdr(hdrs[s.blk], s.idx)];
    }

    /** `GC_clear_marks`. When the client may run before the next sweep, no block may be waiting. */
    method ClearMarks()
      requires Valid() && queued == {}
      modifies this`hdrs
      ensures Valid() && hdrs == Cleared(kinds, old(hdrs))
    {
      hide HeadsOk, TablesOk, ListsOk, QueueOk, SlotsOk, Alike;
      SlotsCleared(kinds, hdrs, nonzero, home, held, dropped, queued, kept, freed);
      QueueAlike(hdrs, Cleared(kinds, hdrs), rlist, waiting, queued);
      hdrs := Cleared(kinds, hdrs);
    }

    // ---------------------------------------------------------------------------------
    // Finishing a collection
    // ---------------------------------------------------------------------------------

    /** `GC_clear_fl_marks` for one list. */
    method ClearFlMarks(id: ListId, ghost hdrs0: Headers, ghost gone: set<Slot>, ghost l: seq<Slot>) returns (ghost gone': set<Slot>)
      requires id in head && Chain(link, head[id], l) && hdrs == Unmarked(hdrs0, gone)
      requires forall s :: s in l ==> s.blk in hdrs0
      modifies this`hdrs
      ensures hdrs == Unmarked(hdrs0, gone') && gone' == gone + set s | s in l
    {
      hide Unmarked, UnmarkedHdr, HdrOk;
      gone' := gone;
      var q := head[id];
      ghost var j := 0;
      while q != Nil
        invariant 0 <= j <= |l| && q == At(l, j)
        invariant gone' == gone + set s | s in l[..j]
        invariant hdrs == Unmarked(hdrs0, gone')
        decreases |l| - j
      {
        var s := q.slot;
        assert s in l && l[..j + 1] == l[..j] + [s];
        UnmarkOne(hdrs0, gone', s);
        if s.idx in hdrs[s.blk].marks {
          hdrs := hdrs[s.blk := UnmarkedHdr(s.blk, hdrs[s.blk], {s})];
        }
        gone' := gone' + {s};
        q := link[s];
        j := j + 1;
      }
      assert l[..j] == l;
    }

    /** The part of `GC_finish_collection` that clears the marks of all free objects. */
    method ClearFreeMarks()
      requires HeadsOk(head.Keys, kinds) && ListsOk(link, head, lists, home) && HdrsOk(hdrs, |kinds|) && HomesOk(hdrs, home)
      modifies this`hdrs
      ensures hdrs == Unmarked(old(hdrs), Globals(home))
    {
      hide ListsOk, HdrsOk, HomesOk, Unmarked, Chain, Globals;
      ListedAreSlots(hdrs, home);
      UnmarkNone(hdrs, |kinds|);
      ghost var gone := {};
      var kind := 0;
      while kind < |kinds|
        invariant gone <= Globals(home) && hdrs == Unmarked(old(hdrs), gone)
        invariant GoneBefore(gone, kind, 1)
      {
        var size := 1;
        while size <= MAXOBJGRANULES
          invariant 1 <= size <= MAXOBJGRANULES + 1
          invariant gone <= Globals(home) && hdrs == Unmarked(old(hdrs), gone)
          invariant GoneBefore(gone, kind, size)
        {
          var id := Global(kind, size);
          ListAt(link, head, lists, home, id);
          gone := ClearFlMarks(id, old(hdrs), gone, lists[id]);
          assert forall s :: On(home, id, s) ==> s in gone;
          size := size + 1;
        }
        kind := kind + 1;
      }
      AllInRange();
      assert gone == Globals(home);
    }

    /** The slots of the first so many lists are in `gone`. */
    ghost predicate GoneBefore(gone: set<Slot>, kind: nat, size: nat)
      reads this`home
    {
      forall s :: s in home && EarlierList(home[s], kind, size) ==> s in gone
    }

    lemma AllInRange()
      requires HeadsOk(head.Keys, kinds) && ListsOk(link, head, lists, home)
      ensures forall s :: s in home && home[s].Global? ==> home[s].kind < |kinds| && 1 <= home[s].gran <= MAXOBJGRANULES
    {
      hide ListOk;
      forall s | s in home ensures home[s] in head.Keys {
      }
      assert forall id: ListId :: id.Global? ==> id.Cls() == Class(id.kind, id.gran);
    }

    /** Gives up a free list; with `clobber`, its links are cleared as in `GC_clear_fl_links`. */
    method DropList(id: ListId, clobber: bool)
      requires ListsOk(link, head, lists, home) && id in head
      modifies this`link, this`head, this`lists, this`home
      ensures ListsOk(link, head, lists, home) && head.Keys == old(head.Keys)
      ensures home == HomesLess(old(home), {id})
      ensures old(id in lists)
      ensures if clobber then forall s :: s in old(lists[id]) ==> s in link && link[s] == Nil else link == old(link)
    {
      hide ListsOk, Chain;
      ListAt(link, head, lists, home, id);
      ghost var l := lists[id];
      var link' := link;
      if clobber {
        link' := ClearLinks(link, head[id], l);
      }
      Empty(link, head, lists, home, link', {id});
      assert head[id := Nil] == EmptyHeads(head, {id});
      link, head, lists, home := link', head[id := Nil], EmptyLists(lists, {id}), HomesLess(home, {id});
    }

    /** `GC_clear_fl_links`. */
    static method ClearLinks(link: Links, p: Ptr, ghost l: seq<Slot>) returns (link': Links)
      requires Chain(link, p, l) && NoRepeats(l)
      ensures forall s :: s in link && s !in l ==> s in link' && link'[s] == link[s]
      ensures forall s :: s in l ==> s in link' && link'[s] == Nil
    {
      hide Chain, NoRepeats, ClearedTo;
      link' := link;
      var q := p;
      ghost var j := 0;
      NoneCleared(link, p, l);
      while q != Nil
        invariant 0 <= j <= |l| && q == At(l, j) && ClearedTo(link, link', l, j)
        decreases |l| - j
      {
        OneMoreCleared(link, link', l, j);
        var next := link'[q.slot];
        link' := link'[q.slot := Nil];
        q := next;
        j := j + 1;
      }
      AllCleared(link, link', l);
    }

    /** The links of the first `j` slots are cleared, and all others are as they were. */
    static ghost predicate ClearedTo(link0: Links, link: Links, l: seq<Slot>, j: nat) {
      && (forall k :: j <= k < |l| ==> l[k] in link && link[l[k]] == At(l, k + 1))
      && (forall k :: 0 <= k < j && k < |l| ==> l[k] in link && link[l[k]] == Nil)
      && (forall s :: s in link0 && s !in l ==> s in link && link[s] == link0[s])
    }

    static lemma NoneCleared(link: Links, p: Ptr, l: seq<Slot>)
      requires Chain(link, p, l)
      ensures ClearedTo(link, link, l, 0) && p == At(l, 0)
    {
    }

    static lemma OneMoreCleared(link0: Links, link: Links, l: seq<Slot>, j: nat)
      requires ClearedTo(link0, link, l, j) && j < |l| && NoRepeats(l)
      ensures l[j] in link && link[l[j]] == At(l, j + 1) && At(l, j) == To(l[j])
      ensures ClearedTo(link0, link[l[j] := Nil], l, j + 1)
    {
    }

    static lemma AllCleared(link0: Links, link: Links, l: seq<Slot>)
      requires ClearedTo(link0, link, l, |l|)
      ensures forall s :: s in link0 && s !in l ==> s in link && link[s] == link0[s]
      ensures forall s :: s in l ==> s in link && link[s] == Nil
    {
    }

    /** The part of `GC_start_reclaim` that gives up the free lists and reclaim lists of all kinds that have the latter. */
    method DropLists()
      requires HeadsOk(head.Keys, kinds) && TablesOk(rlist.Keys, ready, kinds) && ListsOk(link, head, lists, home)
      modifies this`link, this`head, this`lists, this`home, this`rlist
      ensures ListsOk(link, head, lists, home) && head.Keys == old(head.Keys) && rlist.Keys == old(rlist.Keys)
      ensures Remaining(old(home), home, ready)
      ensures forall c :: c in rlist ==> rlist[c] == 0
    {
      hide ListsOk;
      var kind := 0;
      while kind < |kinds|
        invariant ListsOk(link, head, lists, home) && head.Keys == old(head.Keys) && rlist.Keys == old(rlist.Keys)
        invariant DroppedBefore(old(home), kind, 1) && EmptyBefore(kind, 1)
      {
        if kind in ready {
          DropListsOf(kind, old(home));
        } else {
          NextKind(old(home), kind);
        }
        kind := kind + 1;
      }
      AllInRange();
      TablesInRange(rlist.Keys, ready, kinds);
    }

    method DropListsOf(kind: nat, ghost home0: Homes)
      requires HeadsOk(head.Keys, kinds) && TablesOk(rlist.Keys, ready, kinds) && ListsOk(link, head, lists, home)
      requires kind in ready && DroppedBefore(home0, kind, 1) && EmptyBefore(kind, 1)
      modifies this`link, this`head, this`lists, this`home, this`rlist
      ensures ListsOk(link, head, lists, home) && head.Keys == old(head.Keys) && rlist.Keys == old(rlist.Keys)
      ensures DroppedBefore(home0, kind + 1, 1) && EmptyBefore(kind + 1, 1)
    {
      hide ListsOk, DroppedAre, HomesLess;
      var size := 1;
      while size <= MAXOBJGRANULES
        invariant 1 <= size <= MAXOBJGRANULES + 1
        invariant ListsOk(link, head, lists, home) && head.Keys == old(head.Keys) && rlist.Keys == old(rlist.Keys)
        invariant DroppedBefore(home0, kind, size) && EmptyBefore(kind, size)
      {
        NextSize(home0, kind, size);
        DropList(Global(kind, size), kinds[kind].hasDescr);
        assert rlist[Class(kind, size) := 0].Keys == rlist.Keys;
        rlist := rlist[Class(kind, size) := 0];
        size := size + 1;
      }
      AllSizes(home0, kind);
    }

    lemma NextSize(home0: Homes, kind: nat, size: nat)
      requires DroppedBefore(home0, kind, size) && kind in ready && 1 <= size <= MAXOBJGRANULES
      ensures DroppedAre(HomesLess(home, {Global(kind, size)}), home0, kind, size + 1)
    {
    }

    lemma AllSizes(home0: Homes, kind: nat)
      requires DroppedBefore(home0, kind, MAXOBJGRANULES + 1)
      ensures DroppedBefore(home0, kind + 1, 1)
    {
    }

    lemma NextKind(home0: Homes, kind: nat)
      requires TablesOk(rlist.Keys, ready, kinds) && kind !in ready && DroppedBefore(home0, kind, 1) && EmptyBefore(kind, 1)
      ensures DroppedBefore(home0, kind + 1, 1) && EmptyBefore(kind + 1, 1)
    {
    }

    ghost predicate DroppedAre(homeNow: Homes, home0: Homes, kind: nat, size: nat)
      reads this`ready
    {
      && (forall s :: s in homeNow <==> s in home0 && !(EarlierList(home0[s], kind, size) && home0[s].kind in ready))
      && (forall s :: s in homeNow ==> s in home0 && homeNow[s] == home0[s])
    }

    ghost predicate DroppedBefore(home0: Homes, kind: nat, size: nat)
      reads this`home, this`ready
    {
      DroppedAre(home, home0, kind, size)
    }

    /** A block was not visited before, and what is in use is marked. */
    ghost predicate ReadyToVisit(b: nat)
      reads this
    {
      && Valid() && b in hdrs && b !in queued && b !in swept
      && (forall s :: s in held || s in kept ==> Marked(hdrs, s))
      && (forall s :: s in home && s.blk == b ==>
            hdrs[b].marks != {} && (hdrs[b].cls.kind in ready ==> Marked(hdrs, s)))
    }

    /** `GC_reclaim_block`. */
    method ReclaimBlock(b: nat)
      requires b in hdrs && HdrOk(hdrs[b], |kinds|) && TablesOk(rlist.Keys, ready, kinds)
      modifies this`hdrs, this`rlist, this`waiting, this`queued, this`dropped
      ensures rlist.Keys == old(rlist.Keys)
      // What is worth it waits to be swept.
      ensures queued == if Worthwhile(old(hdrs[b]), ready) then old(queued) + {b} else old(queued)
      // Empty blocks are given back; headers of others keep all but their place in the queue.
      ensures hdrs.Keys == if old(hdrs[b]).marks == {} then old(hdrs.Keys) - {b} else old(hdrs.Keys)
      ensures forall c :: c in hdrs ==> hdrs[c] == old(hdrs[c]).(next := hdrs[c].next)
      ensures old(ReadyToVisit(b)) ==> Valid()
    {
      hide HeadsOk, ListsOk, QueueOk, SlotsOk;
      var h := hdrs[b];
      ghost var ok := ReadyToVisit(b);
      if h.cls.gran > MAXOBJGRANULES {
        if 0 !in h.marks {
          GiveBack(b, ok);
        }
      } else {
        var empty := h.nMarks == 0;
        if empty {
          GiveBack(b, ok);
        } else if !(h.nMarks > Objs(h.cls.gran) * 7 / 8) {
          if h.cls.kind in ready {
            Enqueue(b, ok);
          }
        }
      }
    }

    /** `GC_freehblk`, as far as it concerns the sweeper. */
    method GiveBack(b: nat, ghost ok: bool)
      requires b in hdrs && hdrs[b].marks == {}
      requires ok ==> ReadyToVisit(b)
      modifies this`hdrs, this`dropped
      ensures hdrs == old(hdrs) - {b} && (ok ==> Valid())
    {
      hide HeadsOk, TablesOk, ListsOk, QueueOk, SlotsOk;
      if ok {
        SlotsEmptyBlockGone(kinds, hdrs, nonzero, home, held, dropped, queued, kept, freed, b);
        QueueBlockGone(hdrs, rlist, waiting, queued, b);
      }
      dropped := dropped - AllSlots(map[b := hdrs[b]]);
      hdrs := hdrs - {b};
    }

    /** Puts a block on its reclaim list. */
    method Enqueue(b: nat, ghost ok: bool)
      requires b in hdrs && hdrs[b].cls in rlist
      requires ok ==> ReadyToVisit(b) && hdrs[b].cls.kind in ready
      modifies this`hdrs, this`rlist, this`waiting, this`queued, this`dropped
      ensures hdrs == old(hdrs)[b := old(hdrs[b]).(next := old(rlist)[old(hdrs[b]).cls])]
      ensures rlist.Keys == old(rlist.Keys) && queued == old(queued) + {b} && (ok ==> Valid())
    {
      hide HeadsOk, TablesOk, ListsOk, QueueOk, SlotsOk, BlockUnmarked, ReadyToVisit;
      var c := hdrs[b].cls;
      if ok {
        EnqueueKeeps(b);
      }
      assert rlist[c := b].Keys == rlist.Keys;
      dropped := dropped - set s | s in BlockUnmarked(hdrs, b);
      queued := queued + {b};
      waiting := if c in waiting then waiting[c := [b] + waiting[c]] else waiting;
      hdrs := hdrs[b := hdrs[b].(next := rlist[c])];
      rlist := rlist[c := b];
    }

    lemma EnqueueKeeps(b: nat)
      requires b in hdrs && ReadyToVisit(b) && hdrs[b].cls in rlist && hdrs[b].cls.kind in ready
      ensures var c := hdrs[b].cls; var hdrs' := hdrs[b := hdrs[b].(next := rlist[c])];
        && SlotsOk(kinds, hdrs', nonzero, home, held, dropped - (set s | s in BlockUnmarked(hdrs, b)), queued + {b}, kept, freed)
        && c in waiting && QueueOk(hdrs', rlist[c := b], waiting[c := [b] + waiting[c]], queued + {b})
        && Valid() && b !in swept
    {
      hide HeadsOk, TablesOk, ListsOk, QueueOk, SlotsOk, BlockUnmarked;
      NoBlockZero();
      QueueKeys(hdrs, rlist, waiting, queued);
      SlotsEnqueued(kinds, hdrs, nonzero, home, held, dropped, queued, kept, freed, b, rlist[hdrs[b].cls]);
      Enqueued(hdrs, rlist, waiting, queued, b);
    }

    /** After marking: what is in use is marked, free objects are not, but those on lists of threads are. */
    ghost predicate AfterMarking(live: set<Slot>, marked: set<Slot>)
      reads this
    {
      && HeadsOk(head.Keys, kinds) && TablesOk(rlist.Keys, ready, kinds) && ListsOk(link, head, lists, home)
      && HdrsOk(hdrs, |kinds|) && HomesOk(hdrs, home) && Clean(kinds, nonzero, home)
      && (forall s :: s in live || s in marked ==> IsSlot(hdrs, s) && s !in home && Marked(hdrs, s))
      && LocalsMarked(hdrs, home)
    }

    /** Lists of kinds without reclaim lists are not given up. Their slots must not lose their blocks. */
    ghost predicate AllAnchored()
      reads this
    {
      Anchoring(kinds, hdrs, home, ready)
    }

    /** Before the blocks are looked at, all is well. */
    lemma FreshStart(home0: Homes, live: set<Slot>, marked: set<Slot>)
      requires HeadsOk(head.Keys, kinds) && TablesOk(rlist.Keys, ready, kinds) && ListsOk(link, head, lists, home)
      requires HdrsOk(hdrs, |kinds|) && HomesOk(hdrs, home0) && Clean(kinds, nonzero, home0)
      requires Remaining(home0, home, ready) && LocalsMarked(hdrs, home0) && Anchoring(kinds, hdrs, home0, ready)
      requires forall s :: s in live || s in marked ==> IsSlot(hdrs, s) && s !in home0 && Marked(hdrs, s)
      requires waiting == NothingWaiting(rlist) && (forall c :: c in rlist ==> rlist[c] == 0)
      requires queued == {} && held == live && kept == marked && freed == {} && swept == {}
      requires dropped == AllSlots(hdrs) - live - home.Keys
      ensures Valid()
    {
      hide HeadsOk, ListsOk, QueueOk, SlotsOk, HdrsOk, HomesOk, Clean, IsSlot, Marked, LocalsMarked, Anchoring, AllSlots;
      RemainingSlots(kinds, hdrs, nonzero, home0, home, ready);
      SlotsAfterMarking(kinds, hdrs, nonzero, home, live, marked);
      QueueEmpty(hdrs, rlist, ready, kinds);
    }

    lemma MayVisit(hdrs0: Headers, home0: Homes, todo: set<nat>, b: nat)
      requires Valid() && Visited(hdrs0, hdrs, todo) && b in todo && b in hdrs && b !in queued && swept == {}
      requires HomesOk(hdrs0, home0) && Clean(kinds, nonzero, home0) && Remaining(home0, home, ready)
      requires LocalsMarked(hdrs0, home0) && Anchoring(kinds, hdrs0, home0, ready)
      requires forall s :: s in held || s in kept ==> Marked(hdrs0, s)
      ensures ReadyToVisit(b)
    {
      hide HeadsOk, TablesOk, ListsOk, QueueOk, SlotsOk, HomesOk, Clean, LocalsMarked, Anchoring, Visited, Remaining;
      RemainingSlots(kinds, hdrs0, nonzero, home0, home, ready);
      VisitedMarks(hdrs0, hdrs, todo);
    }

    lemma ValidMeansAnchored(hdrs0: Headers, home0: Homes)
      requires Valid() && Visited(hdrs0, hdrs, {}) && HomesOk(hdrs0, home0)
      requires Remaining(home0, home, ready) && LocalsMarked(hdrs0, home0)
      ensures Anchoring(kinds, hdrs0, home0, ready)
    {
      hide HeadsOk, TablesOk, ListsOk, QueueOk, HdrsOk, Shares, Clean, KeptOk;
      forall s | s in home0 && home0[s].Global? && home0[s].kind !in ready ensures Anchored(kinds, hdrs0, s) {
        assert s in home && Fits(hdrs, s, home[s]);
        assert Uncollectable(kinds, hdrs0, s) ==> Uncollectable(kinds, hdrs, s) && Marked(hdrs, s) && Marked(hdrs0, s);
      }
    }

    lemma ValidDrops()
      requires Valid()
      ensures DroppedExactly(hdrs, home, held, queued, dropped)
    {
      hide HeadsOk, TablesOk, ListsOk, QueueOk, HdrsOk, HomesOk, Clean, UncollectablesMarked, KeptOk;
      SharesTellDropped(hdrs, home, held, dropped, queued);
    }

    /** `GC_start_reclaim`. */
    method StartReclaim(live: set<Slot>, ghost marked: set<Slot>)
      requires AfterMarking(live, marked)
      modifies this
      ensures held == live && kept == marked && freed == {} && swept == {}
      ensures ready == old(ready) && head.Keys == old(head.Keys) && nonzero == old(nonzero)
      ensures forall b :: b in hdrs <==> b in old(hdrs) && old(hdrs[b].marks) != {}
      ensures Visited(old(hdrs), hdrs, {}) && gcNo == old(gcNo)
      ensures forall b :: b in queued <==> b in old(hdrs) && Worthwhile(old(hdrs[b]), ready)
      ensures Remaining(old(home), home, ready)
      ensures Valid() <==> old(AllAnchored())
      ensures Valid() ==> DroppedExactly(hdrs, home, held, queued, dropped)
    {
      hide HeadsOk, TablesOk, ListsOk, QueueOk, SlotsOk, HdrsOk, HomesOk, Clean, IsSlot, Marked, HdrOk, Anchoring,
        LocalsMarked, Remaining, AllSlots, NothingWaiting, Visited, DroppedExactly, Worthwhile;
      ghost var hdrs0, home0, anchored := hdrs, home, AllAnchored();
      DropLists();
      waiting := NothingWaiting(rlist);
      queued, held, kept, freed, swept := {}, live, marked, {}, {};
      dropped := AllSlots(hdrs) - live - home.Keys;
      if anchored {
        FreshStart(home0, live, marked);
      }
      VisitBlocks(hdrs0, home0, anchored);
      VisitedAll(hdrs0, hdrs);
      if Valid() {
        ValidMeansAnchored(hdrs0, home0);
        ValidDrops();
      }
    }

    /** `GC_reclaim_block` for all blocks, in any order. */
    method VisitBlocks(ghost hdrs0: Headers, ghost home0: Homes, ghost anchored: bool)
      requires hdrs == hdrs0 && queued == {} && swept == {} && HdrsOk(hdrs, |kinds|) && TablesOk(rlist.Keys, ready, kinds)
      requires HomesOk(hdrs0, home0) && Clean(kinds, nonzero, home0) && Remaining(home0, home, ready)
      requires LocalsMarked(hdrs0, home0) && (forall s :: s in held || s in kept ==> Marked(hdrs0, s))
      requires anchored ==> Valid() && Anchoring(kinds, hdrs0, home0, ready)
      modifies this`hdrs, this`rlist, this`waiting, this`queued, this`dropped
      ensures Visited(hdrs0, hdrs, {}) && (anchored ==> Valid())
      ensures forall b :: b in queued <==> b in hdrs0 && Worthwhile(hdrs0[b], ready)
    {
      hide HeadsOk, TablesOk, ListsOk, QueueOk, SlotsOk, HdrsOk, HomesOk, Clean, Marked, HdrOk, Anchoring,
        LocalsMarked, Remaining, Visited, ReadyToVisit, Worthwhile;
      var todo := hdrs.Keys;
      VisitNone(hdrs);
      while todo != {}
        invariant todo <= hdrs.Keys && Visited(hdrs0, hdrs, todo) && todo !! queued
        invariant TablesOk(rlist.Keys, ready, kinds)
        invariant forall b :: b in queued <==> b in hdrs0 && b !in todo && Worthwhile(hdrs0[b], ready)
        invariant anchored ==> Valid()
        decreases todo
      {
        var b :| b in todo;
        VisitOne(hdrs0, hdrs, todo, b, |kinds|);
        WorthwhileYet(hdrs0, hdrs, todo, b, ready);
        if anchored {
          MayVisit(hdrs0, home0, todo, b);
        }
        ghost var before := hdrs;
        ReclaimBlock(b);
        assert todo - {b} + {b} == todo;
        todo := todo - {b};
        VisitedOne(hdrs0, before, hdrs, todo, b);
      }
    }

    /**
     `GC_finish_collection`, together with the marking before it. `marking` is what the marker has found;
     the client goes on with the objects in `live`.
     */
    method Collect(live: set<Slot>, marking: Marking)
      requires Valid() && MarkingOk(kinds, hdrs, marking)
      requires live <= held && forall s :: s in live ==> Found(marking, s)
      requires forall s :: s in home && home[s].Local? ==> Found(marking, s)
      modifies this
      ensures held == live && freed == {} && swept == {} && kept == FoundSlots(marking) - old(home.Keys)
      ensures forall b :: b in hdrs <==> b in old(hdrs) && HasSurvivor(marking, old(home), b)
      ensures Remaining(old(home), home, ready) && ready == old(ready) && head.Keys == old(head.Keys)
      // All blocks wait that are worth it, by their marks, which no longer include those of free objects.
      ensures var found := AfterMark(old(hdrs), marking, Globals(old(home)));
        Visited(found, hdrs, {}) && forall b :: b in queued <==> b in found && Worthwhile(found[b], ready)
      ensures gcNo == old(gcNo) + 1
      ensures Valid() ==> DroppedExactly(hdrs, home, held, queued, dropped)
      ensures Valid() <==> old(FreeListsLast(kinds, hdrs, home, ready, marking))
      ensures (forall s :: s in old(home) && old(home[s]).Global? ==> old(home[s]).kind in ready) ==> Valid()
    {
      hide HeadsOk, TablesOk, ListsOk, QueueOk, SlotsOk, HdrsOk, HomesOk, Clean, MarkingOk, FreeListsLast, Remarked,
        Unmarked, HasSurvivor, Anchoring, FoundSlots, Found, IsSlot, Marked, LocalsMarked, Globals, Remaining,
        Visited, DroppedExactly, Worthwhile;
      ghost var hdrs0, marked := hdrs, FoundSlots(marking) - home.Keys;
      MarkedFacts(marking, live, marked);
      assert FreeListsLast(kinds, hdrs, home, ready, marking)
        || exists s :: s in home && home[s].Global? && home[s].kind !in ready by { LastUnlessUnready(marking); }
      hdrs := Remarked(hdrs, marking);
      ClearFreeMarks();
      gcNo := gcNo + 1;
      LastingMeansAnchored(kinds, hdrs0, home, ready, marking);
      forall b | b in hdrs0 ensures b in hdrs && (hdrs[b].marks != {} <==> HasSurvivor(marking, home, b)) {
        MarksLeft(hdrs0, marking, home, b);
      }
      StartReclaim(live, marked);
    }

    /** After a collection, an allocation is served from any block that has both survivors and enough dead objects. */
    method CollectAndMalloc(live: set<Slot>, marking: Marking, c: Class) returns (p: Ptr)
      requires Valid() && MarkingOk(kinds, hdrs, marking) && FreeListsLast(kinds, hdrs, home, ready, marking)
      requires live <= held && forall s :: s in live ==> Found(marking, s)
      requires forall s :: s in home && home[s].Local? ==> Found(marking, s)
      requires c.kind in ready && 1 <= c.gran <= MAXOBJGRANULES
      modifies this
      ensures Valid() && held == live + if p.To? then {p.slot} else {}
      ensures var found := AfterMark(old(hdrs), marking, Globals(old(home)));
        (exists b :: b in found && found[b].cls == c && Worthwhile(found[b], old(ready))) ==> p.To? && p.slot !in live
    {
      hide HeadsOk, TablesOk, ListsOk, QueueOk, SlotsOk, MarkingOk, FreeListsLast, Found, HasSurvivor, FoundSlots, AfterMark;
      hide Remaining, DroppedExactly, NonePending, Worthwhile, Fits, Visited;
      MarkedFacts(marking, live, FoundSlots(marking) - home.Keys);
      ghost var found := AfterMark(hdrs, marking, Globals(home));
      KindsReady(c.kind);
      Collect(live, marking);
      VisitedMarks(found, hdrs, {});
      NoBlockZero();
      HeadersOk();
      forall b | b in found && found[b].cls == c && Worthwhile(found[b], ready) ensures !NonePending(hdrs, queued, c) {
        WorthwhileKept(found, hdrs, b, ready);
        WorthwhileHasRoom(hdrs, |kinds|, queued, b, ready);
      }
      p := Malloc(c, 0, true);
    }

    lemma KindsReady(kind: nat)
      requires Valid() && kind in ready
      ensures kind < |kinds|
    {
      hide HeadsOk, ListsOk, QueueOk, SlotsOk;
    }

    lemma LastUnlessUnready(marking: Marking)
      ensures FreeListsLast(kinds, hdrs, home, ready, marking)
        || exists s :: s in home && home[s].Global? && home[s].kind !in ready
    {
    }

    lemma MarkedFacts(marking: Marking, live: set<Slot>, marked: set<Slot>)
      requires Valid() && MarkingOk(kinds, hdrs, marking) && marked == FoundSlots(marking) - home.Keys
      requires live <= held && forall s :: s in live ==> Found(marking, s)
      requires forall s :: s in home && home[s].Local? ==> Found(marking, s)
      ensures marking.Keys == hdrs.Keys && HomesOk(hdrs, home) && Clean(kinds, nonzero, home)
      ensures HdrsOk(Remarked(hdrs, marking), |kinds|) && HomesOk(Remarked(hdrs, marking), home)
      ensures var hdrs' := AfterMark(hdrs, marking, Globals(home));
        && hdrs'.Keys == hdrs.Keys && HdrsOk(hdrs', |kinds|) && HomesOk(hdrs', home) && LocalsMarked(hdrs', home)
        && (forall s :: s in live || s in marked ==> IsSlot(hdrs', s) && s !in home && Marked(hdrs', s))
    {
      hide HeadsOk, TablesOk, ListsOk, QueueOk, UncollectablesMarked, KeptOk;
      MarkingFacts(kinds, hdrs, marking, home);
      RemarkedHomes(kinds, hdrs, marking, home);
      hide HdrsOk, Clean, Unmarked, Remarked, FoundSlots, Globals;
      forall s | s in live ensures s !in home && IsSlot(hdrs, s) {
        assert IsSlot(hdrs, s);
        assert One(s in home) + One(s in held) + One(s in dropped) + One(Pending(hdrs, queued, s)) == 1;
      }
    }

    // ---------------------------------------------------------------------------------
    // Whole runs between two collections
    // ---------------------------------------------------------------------------------

    /** What there is to see of the sweeper. */
    ghost function Now(): Snap
      reads this
    {
      Snap(link, nonzero, head, hdrs, ready, held, lists, queued)
    }

    /** What a step does for the client. Steps that are not possible do nothing. */
    static ghost predicate Did(kinds: seq<KindInfo>, a: Snap, e: Event, z: Snap) {
      match e
      case Allocate(c, h, memory) =>
        if c.kind < |kinds| && 1 <= c.gran <= MAXOBJGRANULES && h !in a.hdrs then
          if z.held == a.held then NonePending(a.hdrs, a.queued, c) && (h == 0 || (!memory && c.kind !in a.ready))
          else exists s :: s !in a.held && z.held == a.held + {s} && Fits(z.hdrs, s, Global(c.kind, c.gran))
        else z == a
      case AllocateLarge(c, h) =>
        if c.kind < |kinds| && c.gran > MAXOBJGRANULES && h != 0 && h !in a.hdrs then z.held == a.held + {Slot(h, 0)} else z == a
      case AllocateLocal(id) =>
        if id in a.head && id.Local? && a.head[id] != Nil then z.held == a.held + {a.head[id].slot} else z == a
      case Refill(id, h, memory) =>
        if id in a.head && id.Local? && a.head[id] == Nil && h !in a.hdrs then
          && z.held == a.held && id in z.head
          && (z.head[id] == Nil ==> h == 0 && NonePending(a.hdrs, a.queued, id.Cls()))
        else z == a
      case GiveBackList(from, to) =>
        if from in a.head && to in a.head && from != to && from.Cls() == to.Cls() then
          && from in a.lists && to in a.lists && z.held == a.held
          && z.lists == a.lists[to := a.lists[from] + a.lists[to]][from := []]
        else z == a
      case Sweeping(c) =>
        if c.kind < |kinds| && 1 <= c.gran <= MAXOBJGRANULES then
          && z.held == a.held && Global(c.kind, c.gran) in z.head
          && (z.head[Global(c.kind, c.gran)] == Nil ==> NonePending(a.hdrs, a.queued, c))
        else z == a
      case StartMarking(mayStop, ignoreOld) =>
        && z.held == a.held
        && (mayStop || (z.queued == {} && forall s :: Marked(z.hdrs, s) ==> Uncollectable(kinds, z.hdrs, s)))
      case Marking(s) => if IsSlot(a.hdrs, s) then Marked(z.hdrs, s) && z.held == a.held else z == a
      case Using(s, first, rest) =>
        if s in a.held then z.link == a.link[s := first] && z.held == a.held else z == a
      case Release(s) => if s in a.held then z.held == a.held - {s} else z == a
    }

    /** A step of allocation. */
    method AllocationStep(e: Event)
      requires Valid() && (e.Allocate? || e.AllocateLarge? || e.AllocateLocal? || e.Refill?)
      modifies this
      ensures Valid() && Did(kinds, old(Now()), e, Now()) && kept == old(kept) && freed == old(freed)
    {
      hide HeadsOk, TablesOk, ListsOk, QueueOk, SlotsOk, Fits, IsSlot, NonePending, Marked, GainedAll, Alike;
      match e
      case Allocate(c, h, memory) =>
        if c.kind < |kinds| && 1 <= c.gran <= MAXOBJGRANULES && h !in hdrs {
          NoBlockZero();
          var p := Malloc(c, h, memory);
        }
      case AllocateLarge(c, h) =>
        if c.kind < |kinds| && c.gran > MAXOBJGRANULES && h != 0 && h !in hdrs {
          var s := MallocLarge(c, h);
        }
      case AllocateLocal(id) =>
        if id in head && id.Local? {
          var p := LocalMalloc(id);
        }
      case Refill(id, h, memory) =>
        if id in head && id.Local? && head[id] == Nil && h !in hdrs {
          MallocMany(id, h, memory);
        }
      case _ =>
    }

    /** One step of a run. */
    method Step(e: Event)
      requires Valid()
      modifies this
      ensures Valid() && Did(kinds, old(Now()), e, Now()) && kept == old(kept) && old(freed) <= freed
      ensures e.Release? && e.s in old(held) ==> freed == old(freed) + {e.s}
      ensures !(e.Release? && e.s in old(held)) ==> freed == old(freed)
    {
      hide HeadsOk, TablesOk, ListsOk, QueueOk, SlotsOk, Fits, IsSlot, NonePending, Marked, GainedAll, Alike;
      match e
      case GiveBackList(from, to) =>
        if from in head && to in head && from != to && from.Cls() == to.Cls() {
          ReturnList(from, to);
        }
      case Sweeping(c) =>
        if c.kind < |kinds| && 1 <= c.gran <= MAXOBJGRANULES {
          ContinueReclaim(c);
        }
      case StartMarking(mayStop, ignoreOld) =>
        var finished := ReclaimAll(mayStop, ignoreOld);
        if finished {
          ghost var hdrs1 := hdrs;
          ClearMarks();
          ClearedMarks(kinds, hdrs1);
        }
      case Marking(s) =>
        if IsSlot(hdrs, s) {
          SetMark(s);
        }
      case Using(s, first, rest) =>
        if s in held {
          Write(s, first, rest);
        }
      case Release(s) =>
        if s in held {
          Free(s);
        }
      case _ =>
        AllocationStep(e);
    }

    /** Any steps in any order. */
    method Run(events: seq<Event>) returns (ghost trace: seq<Snap>)
      requires Valid()
      modifies this
      ensures Valid() && kept == old(kept)
      ensures |trace| == |events| + 1 && trace[0] == old(Now()) && trace[|events|] == Now()
      ensures forall i :: 0 <= i < |events| ==> Did(kinds, trace[i], events[i], trace[i + 1])
      // What was marked at the last collection is on a free list only if it was freed in between.
      ensures forall s :: s in kept && s in home ==> s in freed
      ensures forall s :: s in freed ==> s in old(freed) || Release(s) in events
    {
      hide HeadsOk, TablesOk, ListsOk, QueueOk, SlotsOk, Did;
      trace := [Now()];
      for i := 0 to |events|
        invariant Valid() && kept == old(kept)
        invariant |trace| == i + 1 && trace[0] == old(Now()) && trace[i] == Now()
        invariant forall k :: 0 <= k < i ==> Did(kinds, trace[k], events[k], trace[k + 1])
        invariant forall s :: s in freed ==> s in old(freed) || Release(s) in events
      {
        assert events[i] in events;
        Step(events[i]);
        trace := trace + [Now()];
      }
      KeptStaysAway();
    }

    lemma FirstListed(id: ListId) returns (x: Slot)
      requires Valid() && id in head && head[id] != Nil
      ensures id in lists && lists[id] != [] && On(home, id, x)
    {
      hide HeadsOk, TablesOk, QueueOk, SlotsOk, ListsOk;
      FirstOfList(link, head, lists, home, id);
      x := lists[id][0];
    }

    lemma NothingFound(own: ListId, marking: Marking)
      requires Valid() && own in head && own in lists && lists[own] == []
      requires (forall id :: id in head && id.Local? ==> id == own) && forall k :: 0 <= k < |kinds| ==> !kinds[k].uncollectable
      requires marking.Keys == hdrs.Keys && forall b :: b in marking ==> marking[b] == {}
      ensures MarkingOk(kinds, hdrs, marking) && forall s :: s in home ==> home[s].Global?
    {
      hide HeadsOk, TablesOk, QueueOk, SlotsOk;
      forall s | s in home ensures home[s].Global? {
        ListAt(link, head, lists, home, home[s]);
        assert On(home, home[s], s);
      }
    }

    lemma FittingIsSmall(x: Slot, id: ListId)
      requires Fits(hdrs, x, id)
      ensures x.blk in hdrs && hdrs[x.blk].cls == id.Cls() && id.Cls().gran <= MAXOBJGRANULES
    {
    }

    lemma NoneListed(id: ListId)
      requires Valid() && id in head && head[id] == Nil
      ensures id in lists && lists[id] == []
    {
      hide HeadsOk, TablesOk, QueueOk, SlotsOk, ListsOk;
      ListAt(link, head, lists, home, id);
    }

    /** With a free object in no block, the free lists are not in order. */
    lemma Strayed(x: Slot)
      requires x in home && x.blk !in hdrs
      ensures !Valid()
    {
      hide HeadsOk, TablesOk, QueueOk, ListsOk, HdrsOk, Shares, Clean, UncollectablesMarked, KeptOk;
      assert HomesOk(hdrs, home) ==> Fits(hdrs, x, home[x]);
    }

    lemma KeptStaysAway()
      requires Valid()
      ensures forall s :: s in kept && s in home ==> s in freed
    {
      hide HeadsOk, TablesOk, ListsOk, QueueOk, HdrsOk, HomesOk, Shares, Clean, UncollectablesMarked;
    }
  }

  /**
   A kind whose objects have only ever been got many at a time has no reclaim lists. If all of them are
   then freed, a collection gives back their block but keeps the free list they are on.
   */
  method AListOutlivesItsBlock() returns (s: Sweeper, ghost x: Slot)
    ensures fresh(s) && x in s.home && x.blk !in s.hdrs && !s.Valid()
  {
    hide HeadsOk, TablesOk, ListsOk, QueueOk, SlotsOk, HdrsOk, FreeListsLast, MarkingOk;
    hide NonePending, Visited, DroppedExactly, Worthwhile, AfterMark, FoundSlots;
    var own, global := Local(0, 0, MAXOBJGRANULES), Global(0, MAXOBJGRANULES);
    s := new Sweeper([KindInfo(true, true, false)], {own});
    HasList(s.head.Keys, s.kinds, global.Cls());
    s.MallocMany(own, 1, true);
    FreeAll(s, own);
    x := s.FirstListed(global);
    var marking := map b | b in s.hdrs :: {};
    s.NothingFound(own, marking);
    s.Collect({}, marking);
    s.Strayed(x);
  }

  /** Allocates and frees all objects of a list. */
  method FreeAll(s: Sweeper, own: ListId)
    requires s.Valid() && own in s.head && own.Local? && s.head[own] != Nil
    requires var c := own.Cls(); Global(c.kind, c.gran) in s.head
    modifies s
    ensures s.Valid() && s.head.Keys == old(s.head.Keys) && s.ready == old(s.ready)
    ensures own in s.lists && s.lists[own] == []
    ensures var c := own.Cls(); Global(c.kind, c.gran) in s.head && s.head[Global(c.kind, c.gran)] != Nil
  {
    hide HeadsOk, TablesOk, ListsOk, QueueOk, SlotsOk;
    var c := own.Cls();
    ghost var x := s.FirstListed(own);
    while s.head[own] != Nil
      invariant s.Valid() && s.head.Keys == old(s.head.Keys) && s.ready == old(s.ready) && own in s.lists
      invariant s.head[own] != Nil || s.head[Global(c.kind, c.gran)] != Nil
      decreases |s.lists[own]|
    {
      var p := s.LocalMalloc(own);
      s.FittingIsSmall(p.slot, own);
      s.Free(p.slot);
    }
    s.NoneListed(own);
  }
}
