/**
 What the sweeper keeps true: block headers, the lists of blocks that wait to be swept, and whose every slot is.
 */
module SweepState {
  import opened SweepLists

  /** Whether objects are cleared, may hold pointers, or are kept until explicitly freed. */
  datatype KindInfo = KindInfo(init: bool, hasDescr: bool, uncollectable: bool)

  const PTRFREE: nat := 0

  /** Header of a block in use. `next` is its successor among the blocks that wait to be swept. */
  datatype Hdr = Hdr(cls: Class, marks: set<nat>, nMarks: nat, next: nat, lastReclaimed: nat)

  type Headers = map<nat, Hdr>

  predicate IsSlot(hdrs: Headers, s: Slot) {
    s.blk in hdrs && s.idx < Objs(hdrs[s.blk].cls.gran)
  }

  predicate Marked(hdrs: Headers, s: Slot) {
    s.blk in hdrs && s.idx in hdrs[s.blk].marks
  }

  predicate HdrOk(h: Hdr, nKinds: nat) {
    && h.cls.kind < nKinds && 1 <= h.cls.gran && h.nMarks == |h.marks|
    && (forall i :: i in h.marks ==> i < Objs(h.cls.gran))
  }

  ghost predicate HdrsOk(hdrs: Headers, nKinds: nat) {
    0 !in hdrs && forall b :: b in hdrs ==> HdrOk(hdrs[b], nKinds)
  }

  /** A slot is on a list for the kind and size of its block. */
  predicate Fits(hdrs: Headers, s: Slot, id: ListId) {
    IsSlot(hdrs, s) && hdrs[s.blk].cls == id.Cls() && id.Cls().gran <= MAXOBJGRANULES
  }

  ghost predicate HomesOk(hdrs: Headers, home: Homes) {
    forall s :: s in home ==> Fits(hdrs, s, home[s])
  }

  // -----------------------------------------------------------------------------------
  // Blocks waiting to be swept
  // -----------------------------------------------------------------------------------

  type RLists = map<Class, nat>

  function BlockAt(l: seq<nat>, j: int): nat {
    if 0 <= j < |l| then l[j] else 0
  }

  ghost predicate BlockChain(hdrs: Headers, head: nat, l: seq<nat>) {
    && head == BlockAt(l, 0)
    && (forall k :: 0 <= k < |l| ==> l[k] in hdrs && hdrs[l[k]].next == BlockAt(l, k + 1))
  }

  ghost predicate WaitOk(hdrs: Headers, head: nat, l: seq<nat>, c: Class, queued: set<nat>) {
    && BlockChain(hdrs, head, l)
    && (forall j, k :: 0 <= j < k < |l| ==> l[j] != l[k])
    && (forall b :: b in l <==> b in queued && b in hdrs && hdrs[b].cls == c)
  }

  ghost predicate QueueOk(hdrs: Headers, rlist: RLists, waiting: map<Class, seq<nat>>, queued: set<nat>) {
    && rlist.Keys == waiting.Keys
    && (forall c :: c in rlist ==> WaitOk(hdrs, rlist[c], waiting[c], c, queued) && c.gran <= MAXOBJGRANULES)
    && (forall b :: b in queued ==> b in hdrs && hdrs[b].cls in rlist)
  }

  // -----------------------------------------------------------------------------------
  // Whose a slot is
  // -----------------------------------------------------------------------------------

  /** An unmarked slot of a block that waits to be swept. */
  predicate Pending(hdrs: Headers, queued: set<nat>, s: Slot) {
    s.blk in queued && !Marked(hdrs, s)
  }

  function One(p: bool): nat {
    if p then 1 else 0
  }

  /**
   Every slot is exactly one of these: on a free list, held by the client, about to be swept, or
   dropped, that is out of use until the next collection.
   */
  ghost predicate Shares(hdrs: Headers, home: Homes, held: set<Slot>, dropped: set<Slot>, queued: set<nat>) {
    && (forall s :: IsSlot(hdrs, s) ==>
          One(s in home) + One(s in held) + One(s in dropped) + One(Pending(hdrs, queued, s)) == 1)
    && (forall s :: s in held || s in dropped ==> IsSlot(hdrs, s))
  }

  ghost predicate Clean(kinds: seq<KindInfo>, nonzero: set<Slot>, home: Homes) {
    forall s :: s in home && home[s].Cls().kind < |kinds| && kinds[home[s].Cls().kind].init ==> s !in nonzero
  }

  predicate Uncollectable(kinds: seq<KindInfo>, hdrs: Headers, s: Slot) {
    s.blk in hdrs && hdrs[s.blk].cls.kind < |kinds| && kinds[hdrs[s.blk].cls.kind].uncollectable
  }

  ghost predicate UncollectablesMarked(kinds: seq<KindInfo>, hdrs: Headers, home: Homes, held: set<Slot>) {
    forall s :: (s in home || s in held) && Uncollectable(kinds, hdrs, s) ==> Marked(hdrs, s)
  }

  /** What was marked at the last collection gets on a free list by being freed, or not at all. */
  ghost predicate KeptOk(hdrs: Headers, home: Homes, queued: set<nat>, kept: set<Slot>, freed: set<Slot>) {
    forall s :: s in kept ==>
      (s in freed || (IsSlot(hdrs, s) && s !in home)) && !Pending(hdrs, queued, s)
  }

  /** What is true of the slots. */
  ghost predicate SlotsOk(kinds: seq<KindInfo>, hdrs: Headers, nonzero: set<Slot>, home: Homes, held: set<Slot>,
                          dropped: set<Slot>, queued: set<nat>, kept: set<Slot>, freed: set<Slot>) {
    && HdrsOk(hdrs, |kinds|) && HomesOk(hdrs, home)
    && Shares(hdrs, home, held, dropped, queued)
    && Clean(kinds, nonzero, home) && UncollectablesMarked(kinds, hdrs, home, held)
    && KeptOk(hdrs, home, queued, kept, freed)
  }

  /** The lists there are: one for every kind and size, and those of threads. */
  ghost predicate HeadsOk(ids: set<ListId>, kinds: seq<KindInfo>) {
    && (forall k: nat, g: nat :: k < |kinds| && 1 <= g <= MAXOBJGRANULES ==> Global(k, g) in ids)
    && (forall id :: id in ids ==> id.Cls().kind < |kinds| && 1 <= id.Cls().gran <= MAXOBJGRANULES)
  }

  ghost predicate TablesOk(tables: set<Class>, ready: set<nat>, kinds: seq<KindInfo>) {
    && (forall k :: k in ready ==> k < |kinds|)
    && (forall c: Class :: c in tables <==> c.kind in ready && 1 <= c.gran <= MAXOBJGRANULES)
  }

  lemma HasList(ids: set<ListId>, kinds: seq<KindInfo>, c: Class)
    requires HeadsOk(ids, kinds) && c.kind < |kinds| && 1 <= c.gran <= MAXOBJGRANULES
    ensures Global(c.kind, c.gran) in ids
  {
  }

  lemma ListsInRange(ids: set<ListId>, kinds: seq<KindInfo>, id: ListId)
    requires HeadsOk(ids, kinds) && id in ids
    ensures id.Cls().kind < |kinds| && 1 <= id.Cls().gran <= MAXOBJGRANULES
  {
  }

  lemma NoTable(tables: set<Class>, ready: set<nat>, kinds: seq<KindInfo>, kind: nat)
    requires TablesOk(tables, ready, kinds) && kind !in ready
    ensures forall c :: c in tables ==> c.kind != kind
  {
  }

  lemma TablesInRange(tables: set<Class>, ready: set<nat>, kinds: seq<KindInfo>)
    requires TablesOk(tables, ready, kinds)
    ensures forall c :: c in tables ==> c.kind < |kinds| && c.kind in ready && 1 <= c.gran <= MAXOBJGRANULES
  {
  }

  // -----------------------------------------------------------------------------------
  // The slots of a block
  // -----------------------------------------------------------------------------------

  /** The unmarked ones among the first `n` slots of a block, the last one first. */
  function UnmarkedSlots(b: nat, marks: set<nat>, n: nat): seq<Slot> {
    if n == 0 then []
    else if n - 1 in marks then UnmarkedSlots(b, marks, n - 1)
    else [Slot(b, n - 1)] + UnmarkedSlots(b, marks, n - 1)
  }

  lemma {:induction false} UnmarkedMembers(b: nat, marks: set<nat>, n: nat)
    ensures NoRepeats(UnmarkedSlots(b, marks, n))
    ensures forall s :: s in UnmarkedSlots(b, marks, n) <==> s.blk == b && s.idx < n && s.idx !in marks
  {
    if n > 0 {
      UnmarkedMembers(b, marks, n - 1);
    }
  }

  ghost predicate Alike(hdrs: Headers, hdrs': Headers) {
    && hdrs.Keys == hdrs'.Keys
    && (forall b :: b in hdrs ==> hdrs'[b].cls == hdrs[b].cls && hdrs'[b].next == hdrs[b].next)
  }

  /** All unmarked slots of a block. */
  ghost function BlockUnmarked(hdrs: Headers, b: nat): seq<Slot>
    requires b in hdrs
  {
    UnmarkedSlots(b, hdrs[b].marks, Objs(hdrs[b].cls.gran))
  }

  lemma BlockFacts(hdrs: Headers, nKinds: nat, b: nat)
    requires HdrsOk(hdrs, nKinds) && b in hdrs
    ensures HdrOk(hdrs[b], nKinds) && b != 0
    ensures NoRepeats(BlockUnmarked(hdrs, b))
    ensures forall s :: s in BlockUnmarked(hdrs, b) <==> s.blk == b && IsSlot(hdrs, s) && !Marked(hdrs, s)
  {
    UnmarkedMembers(b, hdrs[b].marks, Objs(hdrs[b].cls.gran));
  }

  lemma ListedAreSlots(hdrs: Headers, home: Homes)
    requires HomesOk(hdrs, home)
    ensures forall s :: s in home ==> IsSlot(hdrs, s)
  {
  }

  /** Dropped slots are on no list and not held. */
  lemma SharesTell(hdrs: Headers, home: Homes, held: set<Slot>, dropped: set<Slot>, queued: set<nat>, news: seq<Slot>)
    requires Shares(hdrs, home, held, dropped, queued) && forall s :: s in news ==> s in dropped
    ensures forall s :: s in news ==> s !in home && s !in held
  {
  }

  lemma QueueAlike(hdrs: Headers, hdrs': Headers, rlist: RLists, waiting: map<Class, seq<nat>>, queued: set<nat>)
    requires QueueOk(hdrs, rlist, waiting, queued) && Alike(hdrs, hdrs')
    ensures QueueOk(hdrs', rlist, waiting, queued)
  {
    forall c | c in rlist ensures WaitOk(hdrs', rlist[c], waiting[c], c, queued) {
      assert WaitOk(hdrs, rlist[c], waiting[c], c, queued);
    }
  }

  lemma PushUnmarked(b: nat, marks: set<nat>, i: nat, link: Links, list: Ptr, l0: seq<Slot>)
    requires Chain(link, list, UnmarkedSlots(b, marks, i) + l0) && i !in marks
    requires forall s :: s in l0 && s.blk == b ==> s.idx in marks
    ensures Chain(link[Slot(b, i) := list], To(Slot(b, i)), UnmarkedSlots(b, marks, i + 1) + l0)
    ensures forall s :: s in UnmarkedSlots(b, marks, i + 1) <==> s == Slot(b, i) || s in UnmarkedSlots(b, marks, i)
  {
    hide Chain;
    var u := UnmarkedSlots(b, marks, i);
    assert UnmarkedSlots(b, marks, i + 1) == [Slot(b, i)] + u;
    UnmarkedMembers(b, marks, i);
    hide UnmarkedSlots;
    assert [Slot(b, i)] + u + l0 == [Slot(b, i)] + (u + l0);
    ChainPush(link, list, u + l0, Slot(b, i));
  }

  // -----------------------------------------------------------------------------------
  // A block is swept
  // -----------------------------------------------------------------------------------

  function FirstN(n: nat): (r: set<nat>)
    ensures forall i: nat :: i in r <==> i < n
  {
    if n == 0 then {} else FirstN(n - 1) + {n - 1}
  }

  /** The header of a swept block; the slots of uncollectable kinds are all marked. */
  function SweptHdr(h: Hdr, gcNo: nat, uncollectable: bool): Hdr {
    var marks := if uncollectable then FirstN(Objs(h.cls.gran)) else h.marks;
    h.(lastReclaimed := gcNo % 0x1_0000, marks := marks, nMarks := |marks|)
  }

  lemma SweptHdrAlike(hdrs: Headers, b: nat, gcNo: nat, uncollectable: bool)
    requires b in hdrs
    ensures Alike(hdrs, hdrs[b := SweptHdr(hdrs[b], gcNo, uncollectable)])
  {
  }

  /** From the old to the new headers, marks have changed in block `b` only. */
  ghost predicate OnlyMarks(hdrs: Headers, hdrs': Headers, b: nat) {
    && (forall s :: IsSlot(hdrs', s) <==> IsSlot(hdrs, s))
    && (forall s: Slot :: s.blk != b ==> (Marked(hdrs', s) <==> Marked(hdrs, s)))
  }

  lemma HdrsSwept(hdrs: Headers, nKinds: nat, b: nat, gcNo: nat, uncollectable: bool)
    requires HdrsOk(hdrs, nKinds) && b in hdrs
    ensures var hdrs' := hdrs[b := SweptHdr(hdrs[b], gcNo, uncollectable)];
      && HdrsOk(hdrs', nKinds) && Alike(hdrs, hdrs') && OnlyMarks(hdrs, hdrs', b)
      && (forall s :: Marked(hdrs, s) ==> Marked(hdrs', s))
      && (uncollectable ==> forall s: Slot :: s.blk == b && IsSlot(hdrs, s) ==> Marked(hdrs', s))
  {
  }

  lemma SharesSwept(hdrs: Headers, hdrs': Headers, b: nat, news: seq<Slot>, id: ListId,
                    home: Homes, held: set<Slot>, dropped: set<Slot>, queued: set<nat>)
    requires Shares(hdrs, home, held, dropped, queued) && OnlyMarks(hdrs, hdrs', b) && b !in queued
    requires forall s :: s in news ==> s in dropped
    ensures Shares(hdrs', HomesPlus(home, news, id), held, dropped - (set s | s in news), queued)
  {
    hide IsSlot, Marked, HomesPlus;
    var home', dropped' := HomesPlus(home, news, id), dropped - set s | s in news;
    forall s | IsSlot(hdrs', s)
      ensures One(s in home') + One(s in held) + One(s in dropped') + One(Pending(hdrs', queued, s)) == 1
    {
      assert IsSlot(hdrs, s);
    }
  }

  lemma HomesSwept(hdrs: Headers, hdrs': Headers, home: Homes, news: seq<Slot>, id: ListId)
    requires HomesOk(hdrs, home) && Alike(hdrs, hdrs') && id.Cls().gran <= MAXOBJGRANULES
    requires forall s :: s in news ==> IsSlot(hdrs, s) && hdrs[s.blk].cls == id.Cls()
    ensures HomesOk(hdrs', HomesPlus(home, news, id))
  {
    var home' := HomesPlus(home, news, id);
    forall s | s in home' ensures Fits(hdrs', s, home'[s]) {
      hide HomesPlus;
      assert s !in news ==> On(home', home'[s], s) && On(home, home'[s], s);
      assert s in news ==> On(home', id, s);
    }
  }

  lemma UncollectablesSwept(kinds: seq<KindInfo>, hdrs: Headers, hdrs': Headers, b: nat, home: Homes,
                            news: seq<Slot>, id: ListId, held: set<Slot>)
    requires UncollectablesMarked(kinds, hdrs, home, held) && Alike(hdrs, hdrs')
    requires forall s :: Marked(hdrs, s) ==> Marked(hdrs', s)
    requires forall s :: s in news && Uncollectable(kinds, hdrs, s) ==> Marked(hdrs', s)
    ensures UncollectablesMarked(kinds, hdrs', HomesPlus(home, news, id), held)
  {
    hide HomesPlus;
    forall s | (s in HomesPlus(home, news, id) || s in held) && Uncollectable(kinds, hdrs', s) ensures Marked(hdrs', s) {
      assert Uncollectable(kinds, hdrs, s);
    }
  }

  lemma CleanMore(kinds: seq<KindInfo>, nonzero: set<Slot>, nonzero': set<Slot>, home: Homes, news: seq<Slot>, id: ListId)
    requires Clean(kinds, nonzero, home) && nonzero' <= nonzero
    requires id.Cls().kind < |kinds| && kinds[id.Cls().kind].init ==> forall s :: s in news ==> s !in nonzero'
    ensures Clean(kinds, nonzero', HomesPlus(home, news, id))
  {
    var home' := HomesPlus(home, news, id);
    forall s | s in home' && home'[s].Cls().kind < |kinds| && kinds[home'[s].Cls().kind].init ensures s !in nonzero' {
      hide HomesPlus;
      assert s !in news ==> On(home', home'[s], s) && On(home, home'[s], s);
      assert s in news ==> On(home', id, s);
    }
  }

  lemma KeptMore(hdrs: Headers, hdrs': Headers, home: Homes, news: seq<Slot>, id: ListId,
                 queued: set<nat>, kept: set<Slot>, freed: set<Slot>)
    requires KeptOk(hdrs, home, queued, kept, freed)
    requires forall s :: Pending(hdrs', queued, s) ==> Pending(hdrs, queued, s)
    requires forall s :: IsSlot(hdrs, s) ==> IsSlot(hdrs', s)
    requires forall s :: s in news ==> s !in kept || s in freed
    ensures KeptOk(hdrs', HomesPlus(home, news, id), queued, kept, freed)
  {
    hide HomesPlus, IsSlot, Pending;
  }

  lemma SlotsSwept(kinds: seq<KindInfo>, hdrs: Headers, nonzero: set<Slot>, home: Homes, held: set<Slot>,
                   dropped: set<Slot>, queued: set<nat>, kept: set<Slot>, freed: set<Slot>,
                   b: nat, gcNo: nat, id: ListId, nonzero': set<Slot>)
    requires SlotsOk(kinds, hdrs, nonzero, home, held, dropped, queued, kept, freed)
    requires b in hdrs && hdrs[b].cls.kind < |kinds| && b !in queued
    requires id.Cls() == hdrs[b].cls && id.Cls().gran <= MAXOBJGRANULES
    requires forall s :: s in BlockUnmarked(hdrs, b) ==> s in dropped && s !in kept
    requires nonzero' <= nonzero && (kinds[hdrs[b].cls.kind].init ==> forall s :: s in BlockUnmarked(hdrs, b) ==> s !in nonzero')
    ensures SlotsOk(kinds, hdrs[b := SweptHdr(hdrs[b], gcNo, kinds[hdrs[b].cls.kind].uncollectable)], nonzero',
                    HomesPlus(home, BlockUnmarked(hdrs, b), id), held,
                    dropped - (set s | s in BlockUnmarked(hdrs, b)), queued, kept, freed)
  {
    hide HdrsOk, HomesOk, Shares, Clean, UncollectablesMarked, KeptOk, HomesPlus, Alike, UnmarkedSlots, OnlyMarks, SweptHdr;
    var news, uncollectable := BlockUnmarked(hdrs, b), kinds[hdrs[b].cls.kind].uncollectable;
    var hdrs' := hdrs[b := SweptHdr(hdrs[b], gcNo, uncollectable)];
    BlockFacts(hdrs, |kinds|, b);
    HdrsSwept(hdrs, |kinds|, b, gcNo, uncollectable);
    SharesSwept(hdrs, hdrs', b, news, id, home, held, dropped, queued);
    HomesSwept(hdrs, hdrs', home, news, id);
    UncollectablesSwept(kinds, hdrs, hdrs', b, home, news, id, held);
    CleanMore(kinds, nonzero, nonzero', home, news, id);
    KeptMore(hdrs, hdrs', home, news, id, queued, kept, freed);
  }

  // -----------------------------------------------------------------------------------
  // A block is taken off the queue
  // -----------------------------------------------------------------------------------

  // -----------------------------------------------------------------------------------
  // What comes of sweeping
  // -----------------------------------------------------------------------------------

  /** Just what was waiting in blocks that do not any more, all of class `c`, has come to list `l`. */
  ghost predicate GainedAll(hdrs: Headers, queued0: set<nat>, queued: set<nat>, l0: seq<Slot>, l: seq<Slot>, c: Class) {
    && (forall s :: s in l <==> s in l0 || (IsSlot(hdrs, s) && Pending(hdrs, queued0, s) && s.blk !in queued))
    && (forall b :: b in queued0 && b !in queued ==> b in hdrs && hdrs[b].cls == c)
  }

  /** No slot of the class is waiting to be swept. */
  ghost predicate NonePending(hdrs: Headers, queued: set<nat>, c: Class) {
    forall s :: IsSlot(hdrs, s) && Pending(hdrs, queued, s) ==> hdrs[s.blk].cls != c
  }

  /** Nothing happens to a block while it waits. */
  ghost predicate StillWaiting(hdrs0: Headers, hdrs: Headers, queued: set<nat>) {
    forall b :: b in queued ==> b in hdrs && b in hdrs0 && hdrs[b] == hdrs0[b]
  }

  lemma WaitingYet(hdrs: Headers, rlist: RLists, waiting: map<Class, seq<nat>>, queued: set<nat>)
    requires QueueOk(hdrs, rlist, waiting, queued)
    ensures StillWaiting(hdrs, hdrs, queued) && Alike(hdrs, hdrs)
  {
  }

  lemma StillAlike(hdrs0: Headers, hdrs1: Headers, hdrs2: Headers, queued1: set<nat>, queued2: set<nat>)
    requires Alike(hdrs0, hdrs1) && Alike(hdrs1, hdrs2) && queued2 <= queued1
    requires StillWaiting(hdrs0, hdrs1, queued1) && StillWaiting(hdrs1, hdrs2, queued2)
    ensures Alike(hdrs0, hdrs2) && StillWaiting(hdrs0, hdrs2, queued2)
  {
  }

  lemma NothingGained(hdrs: Headers, queued: set<nat>, l: seq<Slot>, c: Class)
    ensures GainedAll(hdrs, queued, queued, l, l, c)
  {
  }

  lemma GainedOne(hdrs: Headers, nKinds: nat, queued: set<nat>, b: nat, l: seq<Slot>)
    requires HdrsOk(hdrs, nKinds) && b in hdrs && b in queued
    ensures GainedAll(hdrs, queued, queued - {b}, l, BlockUnmarked(hdrs, b) + l, hdrs[b].cls)
  {
    BlockFacts(hdrs, nKinds, b);
    hide BlockUnmarked, IsSlot;
  }

  lemma GainedMore(hdrs0: Headers, hdrs1: Headers, queued0: set<nat>, queued1: set<nat>, queued2: set<nat>,
                   l0: seq<Slot>, l1: seq<Slot>, l2: seq<Slot>, c: Class)
    requires GainedAll(hdrs0, queued0, queued1, l0, l1, c) && GainedAll(hdrs1, queued1, queued2, l1, l2, c)
    requires StillWaiting(hdrs0, hdrs1, queued1) && queued2 <= queued1 <= queued0
    ensures GainedAll(hdrs0, queued0, queued2, l0, l2, c)
  {
  }

  /** If nothing was waiting, nothing has come. */
  lemma NothingComes(hdrs: Headers, queued0: set<nat>, queued: set<nat>, l: seq<Slot>, c: Class)
    requires GainedAll(hdrs, queued0, queued, [], l, c) && NonePending(hdrs, queued0, c)
    ensures l == []
  {
    if l != [] {
      HasMember(l);
    }
  }

  lemma HasMember(l: seq<Slot>)
    requires l != []
    ensures exists s :: s in l
  {
    assert l[0] in l;
  }

  /** Of the blocks that have been swept only one had anything to give. */
  ghost predicate Lazily(hdrs: Headers, gone: set<nat>) {
    forall s, t :: IsSlot(hdrs, s) && IsSlot(hdrs, t) && Pending(hdrs, gone, s) && Pending(hdrs, gone, t) ==> s.blk == t.blk
  }

  lemma StillLazy(hdrs: Headers, queued0: set<nat>, queued: set<nat>, l0: seq<Slot>, l: seq<Slot>, c: Class, b: nat)
    requires GainedAll(hdrs, queued0, queued, l0, l, c) && (queued == queued0 || l == []) && b in queued && queued <= queued0
    ensures Lazily(hdrs, queued0 - (queued - {b}))
  {
    var gone := queued0 - (queued - {b});
    forall s | IsSlot(hdrs, s) && Pending(hdrs, gone, s) ensures s.blk == b {
      assert s.blk != b ==> Pending(hdrs, queued0, s) && s in l;
    }
  }

  /** Which of the blocks that left the queue were swept: with `ignoreOld`, only those swept in the last cycle. */
  function ToSweep(hdrs: Headers, gone: set<nat>, ignoreOld: bool, gcNo: nat): set<nat> {
    set b | b in gone && b in hdrs && (!ignoreOld || hdrs[b].lastReclaimed + 1 == gcNo)
  }

  lemma SweepNone(hdrs: Headers, queued: set<nat>, ignoreOld: bool, gcNo: nat)
    ensures ToSweep(hdrs, queued - queued, ignoreOld, gcNo) == {}
  {
  }

  lemma SweepMore(hdrs0: Headers, hdrs1: Headers, queued0: set<nat>, queued1: set<nat>, queued2: set<nat>,
                  ignoreOld: bool, gcNo: nat, swept0: set<nat>, swept1: set<nat>, swept2: set<nat>)
    requires queued2 <= queued1 <= queued0
    requires swept1 == swept0 + ToSweep(hdrs0, queued0 - queued1, ignoreOld, gcNo)
    requires swept2 == swept1 + ToSweep(hdrs1, queued1 - queued2, ignoreOld, gcNo)
    requires StillWaiting(hdrs0, hdrs1, queued1)
    ensures swept2 == swept0 + ToSweep(hdrs0, queued0 - queued2, ignoreOld, gcNo)
  {
  }

  lemma QueueHead(hdrs: Headers, rlist: RLists, waiting: map<Class, seq<nat>>, queued: set<nat>, c: Class)
    requires QueueOk(hdrs, rlist, waiting, queued) && c in rlist && rlist[c] != 0
    ensures c in waiting && waiting[c] != [] && waiting[c][0] == rlist[c]
    ensures rlist[c] in queued && rlist[c] in hdrs && hdrs[rlist[c]].cls == c && c.gran <= MAXOBJGRANULES
  {
    assert WaitOk(hdrs, rlist[c], waiting[c], c, queued);
    assert rlist[c] in waiting[c];
  }

  lemma QueuesHaveHeads(hdrs: Headers, rlist: RLists, waiting: map<Class, seq<nat>>, queued: set<nat>)
    requires QueueOk(hdrs, rlist, waiting, queued) && 0 !in hdrs
    ensures forall b :: b in queued ==> b in hdrs && hdrs[b].cls in rlist && rlist[hdrs[b].cls] != 0
  {
    forall b | b in queued ensures rlist[hdrs[b].cls] != 0 {
      var c := hdrs[b].cls;
      assert WaitOk(hdrs, rlist[c], waiting[c], c, queued);
      assert b in waiting[c] && waiting[c][0] in hdrs;
    }
  }

  lemma NothingQueued(hdrs: Headers, rlist: RLists, waiting: map<Class, seq<nat>>, queued: set<nat>)
    requires QueueOk(hdrs, rlist, waiting, queued) && 0 !in hdrs
    requires forall c :: c in rlist ==> rlist[c] == 0
    ensures queued == {}
  {
    hide QueueOk;
    QueuesHaveHeads(hdrs, rlist, waiting, queued);
  }

  lemma Dequeued(hdrs: Headers, rlist: RLists, waiting: map<Class, seq<nat>>, queued: set<nat>, c: Class)
    requires QueueOk(hdrs, rlist, waiting, queued) && c in rlist && rlist[c] != 0 && rlist[c] in hdrs
    requires c in waiting && waiting[c] != []
    ensures QueueOk(hdrs, rlist[c := hdrs[rlist[c]].next], waiting[c := waiting[c][1..]], queued - {rlist[c]})
  {
    hide WaitOk;
    var b, l := rlist[c], waiting[c];
    var rlist', waiting', queued' := rlist[c := hdrs[b].next], waiting[c := l[1..]], queued - {b};
    QueueHead(hdrs, rlist, waiting, queued, c);
    forall d | d in rlist' ensures WaitOk(hdrs, rlist'[d], waiting'[d], d, queued') {
      if d == c {
        WaitTail(hdrs, b, l, c, queued);
      } else {
        WaitOther(hdrs, rlist[d], waiting[d], d, queued, b);
      }
    }
  }

  lemma WaitOther(hdrs: Headers, head: nat, l: seq<nat>, c: Class, queued: set<nat>, b: nat)
    requires WaitOk(hdrs, head, l, c, queued) && b in hdrs && hdrs[b].cls != c
    ensures WaitOk(hdrs, head, l, c, queued - {b}) && WaitOk(hdrs, head, l, c, queued + {b})
  {
    hide BlockChain;
  }

  lemma WaitTail(hdrs: Headers, b: nat, l: seq<nat>, c: Class, queued: set<nat>)
    requires WaitOk(hdrs, b, l, c, queued) && l != [] && b in hdrs
    ensures WaitOk(hdrs, hdrs[b].next, l[1..], c, queued - {b})
  {
    hide BlockChain;
    BlockChainTail(hdrs, b, l);
    var t := l[1..];
    assert l == [b] + t;
    assert forall x :: x in l <==> x == b || x in t;
  }

  lemma BlockChainTail(hdrs: Headers, b: nat, l: seq<nat>)
    requires BlockChain(hdrs, b, l) && l != [] && b in hdrs
    ensures BlockChain(hdrs, hdrs[b].next, l[1..]) && l[0] == b
  {
    assert forall k :: 0 <= k < |l| - 1 ==> l[1..][k] == l[k + 1];
  }

  /** The unmarked slots of a block taken off the queue are dropped, unless it is swept. */
  lemma SlotsDequeued(kinds: seq<KindInfo>, hdrs: Headers, nonzero: set<Slot>, home: Homes, held: set<Slot>,
                      dropped: set<Slot>, queued: set<nat>, kept: set<Slot>, freed: set<Slot>, b: nat)
    requires SlotsOk(kinds, hdrs, nonzero, home, held, dropped, queued, kept, freed) && b in queued && b in hdrs
    ensures SlotsOk(kinds, hdrs, nonzero, home, held, dropped + (set s | s in BlockUnmarked(hdrs, b)),
                    queued - {b}, kept, freed)
    ensures forall s :: s in BlockUnmarked(hdrs, b) ==> s !in kept
  {
    hide BlockUnmarked, HdrOk, IsSlot, Marked, Fits, Clean, UncollectablesMarked;
    BlockFacts(hdrs, |kinds|, b);
    var queued', dropped' := queued - {b}, dropped + set s | s in BlockUnmarked(hdrs, b);
    forall s | s in BlockUnmarked(hdrs, b) ensures s !in kept {
      assert Pending(hdrs, queued, s);
    }
    forall s | IsSlot(hdrs, s)
      ensures One(s in home) + One(s in held) + One(s in dropped') + One(Pending(hdrs, queued', s)) == 1
    {
      assert One(s in home) + One(s in held) + One(s in dropped) + One(Pending(hdrs, queued, s)) == 1;
    }
    forall s | s in kept ensures !Pending(hdrs, queued', s) {
      assert !Pending(hdrs, queued, s);
    }
  }

  // -----------------------------------------------------------------------------------
  // A slot is allocated or freed
  // -----------------------------------------------------------------------------------

  lemma SlotsAllocated(kinds: seq<KindInfo>, hdrs: Headers, nonzero: set<Slot>, home: Homes, held: set<Slot>,
                       dropped: set<Slot>, queued: set<nat>, kept: set<Slot>, freed: set<Slot>, s: Slot)
    requires SlotsOk(kinds, hdrs, nonzero, home, held, dropped, queued, kept, freed) && s in home
    ensures SlotsOk(kinds, hdrs, nonzero, home - {s}, held + {s}, dropped, queued, kept, freed)
    ensures Fits(hdrs, s, home[s]) && s !in held
    ensures home[s].Cls().kind < |kinds| && (kinds[home[s].Cls().kind].init ==> s !in nonzero)
  {
    hide HdrOk, IsSlot, Marked, Pending;
    assert Fits(hdrs, s, home[s]) && HdrOk(hdrs[s.blk], |kinds|) by { KindOfListed(kinds, hdrs, home, s); }
    KindOfListed(kinds, hdrs, home, s);
    assert IsSlot(hdrs, s);
    var home', held' := home - {s}, held + {s};
    forall t | IsSlot(hdrs, t)
      ensures One(t in home') + One(t in held') + One(t in dropped) + One(Pending(hdrs, queued, t)) == 1
    {
      assert One(t in home) + One(t in held) + One(t in dropped) + One(Pending(hdrs, queued, t)) == 1;
    }
  }

  lemma KindOfListed(kinds: seq<KindInfo>, hdrs: Headers, home: Homes, s: Slot)
    requires HdrsOk(hdrs, |kinds|) && HomesOk(hdrs, home) && s in home
    ensures Fits(hdrs, s, home[s]) && IsSlot(hdrs, s) && HdrOk(hdrs[s.blk], |kinds|) && home[s].Cls().kind < |kinds|
  {
  }

  lemma SlotsFreed(kinds: seq<KindInfo>, hdrs: Headers, nonzero: set<Slot>, home: Homes, held: set<Slot>,
                   dropped: set<Slot>, queued: set<nat>, kept: set<Slot>, freed: set<Slot>, s: Slot, id: ListId,
                   nonzero': set<Slot>)
    requires SlotsOk(kinds, hdrs, nonzero, home, held, dropped, queued, kept, freed) && s in held
    requires Fits(hdrs, s, id) && id.Cls().kind < |kinds|
    requires nonzero' <= nonzero && (kinds[id.Cls().kind].init ==> s !in nonzero') && (s !in kept || s in freed)
    ensures SlotsOk(kinds, hdrs, nonzero', HomesPlus(home, [s], id), held - {s}, dropped, queued, kept, freed)
    ensures s !in home
  {
    hide HdrOk, Marked, Pending, HomesPlus;
    assert IsSlot(hdrs, s);
    assert One(s in home) + One(s in held) + One(s in dropped) + One(Pending(hdrs, queued, s)) == 1;
    var home', held' := HomesPlus(home, [s], id), held - {s};
    CleanMore(kinds, nonzero, nonzero', home, [s], id);
    KeptMore(hdrs, hdrs, home, [s], id, queued, kept, freed);
    HomesSwept(hdrs, hdrs, home, [s], id);
    forall t | IsSlot(hdrs, t)
      ensures One(t in home') + One(t in held') + One(t in dropped) + One(Pending(hdrs, queued, t)) == 1
    {
      assert One(t in home) + One(t in held) + One(t in dropped) + One(Pending(hdrs, queued, t)) == 1;
    }
  }

  /** A block with one large object is freed, or one without marks. */
  lemma SlotsBlockGone(kinds: seq<KindInfo>, hdrs: Headers, nonzero: set<Slot>, home: Homes, held: set<Slot>,
                       dropped: set<Slot>, queued: set<nat>, kept: set<Slot>, freed: set<Slot>, b: nat, s: Slot)
    requires SlotsOk(kinds, hdrs, nonzero, home, held, dropped, queued, kept, freed) && b in hdrs && b !in queued
    requires s in held && s.blk == b && Objs(hdrs[b].cls.gran) == 1 && hdrs[b].cls.gran > MAXOBJGRANULES
    ensures SlotsOk(kinds, hdrs - {b}, nonzero, home, held - {s}, dropped, queued, kept, freed + {s})
  {
    hide HdrOk;
    var hdrs', held' := hdrs - {b}, held - {s};
    assert IsSlot(hdrs, s) && s.idx == 0;
    forall t | t in home ensures Fits(hdrs', t, home[t]) {
      assert Fits(hdrs, t, home[t]);
    }
    forall t | IsSlot(hdrs', t)
      ensures One(t in home) + One(t in held') + One(t in dropped) + One(Pending(hdrs', queued, t)) == 1
    {
      assert IsSlot(hdrs, t);
      assert Pending(hdrs', queued, t) == Pending(hdrs, queued, t);
    }
    forall t | t in held' || t in dropped ensures IsSlot(hdrs', t) {
      assert IsSlot(hdrs, t);
      assert t.blk == b ==> t == s;
      assert One(t in home) + One(t in held) + One(t in dropped) + One(Pending(hdrs, queued, t)) == 1;
    }
    forall t | t in kept
      ensures (t in freed + {s} || (IsSlot(hdrs', t) && t !in home)) && !Pending(hdrs', queued, t)
    {
      assert !Pending(hdrs, queued, t);
      assert IsSlot(hdrs, t) && t.blk == b ==> t == s;
    }
    assert UncollectablesMarked(kinds, hdrs', home, held') by {
      forall t | (t in home || t in held') && Uncollectable(kinds, hdrs', t) ensures Marked(hdrs', t) {
        assert Uncollectable(kinds, hdrs, t);
      }
    }
  }

  // -----------------------------------------------------------------------------------
  // A new block
  // -----------------------------------------------------------------------------------

  function NewHdr(c: Class, uncollectable: bool): Hdr {
    var marks := if uncollectable then FirstN(Objs(c.gran)) else {};
    Hdr(c, marks, |marks|, 0, 0)
  }

  lemma NewHdrOk(hdrs: Headers, nKinds: nat, h: nat, c: Class, uncollectable: bool)
    requires HdrsOk(hdrs, nKinds) && h != 0 && h !in hdrs && c.kind < nKinds && 1 <= c.gran
    ensures var hdrs' := hdrs[h := NewHdr(c, uncollectable)];
      && HdrsOk(hdrs', nKinds)
      && (forall s: Slot :: s.blk != h ==> (IsSlot(hdrs', s) <==> IsSlot(hdrs, s)) && (Marked(hdrs', s) <==> Marked(hdrs, s)))
      && (forall s :: IsSlot(hdrs, s) ==> s.blk != h && IsSlot(hdrs', s))
      && (uncollectable ==> forall s: Slot :: s.blk == h && IsSlot(hdrs', s) ==> Marked(hdrs', s))
  {
  }

  lemma QueueNewBlock(hdrs: Headers, rlist: RLists, waiting: map<Class, seq<nat>>, queued: set<nat>, h: nat, hdr: Hdr)
    requires QueueOk(hdrs, rlist, waiting, queued) && h !in hdrs
    ensures QueueOk(hdrs[h := hdr], rlist, waiting, queued) && h !in queued
  {
    forall c | c in rlist ensures WaitOk(hdrs[h := hdr], rlist[c], waiting[c], c, queued) {
      assert WaitOk(hdrs, rlist[c], waiting[c], c, queued);
    }
  }

  lemma SlotsNewBlock(kinds: seq<KindInfo>, hdrs: Headers, nonzero: set<Slot>, home: Homes, held: set<Slot>,
                      dropped: set<Slot>, queued: set<nat>, kept: set<Slot>, freed: set<Slot>,
                      h: nat, id: ListId, nonzero': set<Slot>)
    requires SlotsOk(kinds, hdrs, nonzero, home, held, dropped, queued, kept, freed)
    requires h != 0 && h !in hdrs && h !in queued
    requires id.Cls().kind < |kinds| && 1 <= id.Cls().gran <= MAXOBJGRANULES && nonzero' <= nonzero
    requires var news := UnmarkedSlots(h, {}, Objs(id.Cls().gran));
      kinds[id.Cls().kind].init ==> forall s :: s in news ==> s !in nonzero'
    ensures var news := UnmarkedSlots(h, {}, Objs(id.Cls().gran));
      SlotsOk(kinds, hdrs[h := NewHdr(id.Cls(), kinds[id.Cls().kind].uncollectable)], nonzero',
              HomesPlus(home, news, id), held, dropped, queued, kept, freed)
  {
    hide HdrOk, HomesPlus, NewHdr, UnmarkedSlots;
    var c, news := id.Cls(), UnmarkedSlots(h, {}, Objs(id.Cls().gran));
    var hdrs', home' := hdrs[h := NewHdr(c, kinds[c.kind].uncollectable)], HomesPlus(home, news, id);
    assert hdrs'[h].cls == c by { NewHdrCls(c, kinds[c.kind].uncollectable); }
    UnmarkedMembers(h, {}, Objs(c.gran));
    NewHdrOk(hdrs, |kinds|, h, c, kinds[c.kind].uncollectable);
    CleanMore(kinds, nonzero, nonzero', home, news, id);
    HomesNewBlock(hdrs, hdrs', home, news, id, h);
    SharesNewBlock(hdrs, hdrs', home, held, dropped, queued, news, id, h);
    KeptNewBlock(hdrs, hdrs', home, news, id, queued, kept, freed, h);
    UncollectablesNewBlock(kinds, hdrs, hdrs', home, news, id, held, h);
  }

  lemma NewHdrCls(c: Class, uncollectable: bool)
    ensures NewHdr(c, uncollectable).cls == c
  {
  }

  lemma HomesNewBlock(hdrs: Headers, hdrs': Headers, home: Homes, news: seq<Slot>, id: ListId, h: nat)
    requires HomesOk(hdrs, home) && h !in hdrs && h in hdrs' && hdrs' == hdrs[h := hdrs'[h]]
    requires hdrs'[h].cls == id.Cls() && id.Cls().gran <= MAXOBJGRANULES
    requires forall s :: s in news <==> s.blk == h && IsSlot(hdrs', s)
    ensures HomesOk(hdrs', HomesPlus(home, news, id))
  {
    var home' := HomesPlus(home, news, id);
    forall s | s in home' ensures Fits(hdrs', s, home'[s]) {
      hide HomesPlus;
      assert s !in news ==> On(home', home'[s], s) && On(home, home'[s], s);
      assert s in news ==> On(home', id, s);
    }
  }

  lemma SharesNewBlock(hdrs: Headers, hdrs': Headers, home: Homes, held: set<Slot>, dropped: set<Slot>, queued: set<nat>,
                       news: seq<Slot>, id: ListId, h: nat)
    requires Shares(hdrs, home, held, dropped, queued) && HomesOk(hdrs, home) && h !in queued
    requires forall s: Slot :: s.blk != h ==> (IsSlot(hdrs', s) <==> IsSlot(hdrs, s)) && (Marked(hdrs', s) <==> Marked(hdrs, s))
    requires forall s :: IsSlot(hdrs, s) ==> s.blk != h && IsSlot(hdrs', s)
    requires forall s :: s in news <==> s.blk == h && IsSlot(hdrs', s)
    ensures Shares(hdrs', HomesPlus(home, news, id), held, dropped, queued)
  {
    ListedAreSlots(hdrs, home);
    hide IsSlot, Marked, HomesPlus, HomesOk;
    var home' := HomesPlus(home, news, id);
    forall s | IsSlot(hdrs', s)
      ensures One(s in home') + One(s in held) + One(s in dropped) + One(Pending(hdrs', queued, s)) == 1
    {
      assert s.blk != h ==> IsSlot(hdrs, s);
    }
  }

  lemma KeptNewBlock(hdrs: Headers, hdrs': Headers, home: Homes, news: seq<Slot>, id: ListId,
                     queued: set<nat>, kept: set<Slot>, freed: set<Slot>, h: nat)
    requires KeptOk(hdrs, home, queued, kept, freed) && h !in queued
    requires forall s: Slot :: s.blk != h ==> (Marked(hdrs', s) <==> Marked(hdrs, s))
    requires forall s :: IsSlot(hdrs, s) ==> s.blk != h && IsSlot(hdrs', s)
    requires forall s :: s in news <==> s.blk == h && IsSlot(hdrs', s)
    ensures KeptOk(hdrs', HomesPlus(home, news, id), queued, kept, freed)
  {
    hide IsSlot, Marked, HomesPlus;
  }

  lemma UncollectablesNewBlock(kinds: seq<KindInfo>, hdrs: Headers, hdrs': Headers, home: Homes,
                               news: seq<Slot>, id: ListId, held: set<Slot>, h: nat)
    requires UncollectablesMarked(kinds, hdrs, home, held) && h !in hdrs && h in hdrs' && hdrs' == hdrs[h := hdrs'[h]]
    requires hdrs'[h].cls.kind < |kinds| && (forall s :: s in held || s in home ==> s.blk != h)
    requires forall s :: s in news <==> s.blk == h && IsSlot(hdrs', s)
    requires kinds[hdrs'[h].cls.kind].uncollectable ==> forall s: Slot :: s.blk == h && IsSlot(hdrs', s) ==> Marked(hdrs', s)
    ensures UncollectablesMarked(kinds, hdrs', HomesPlus(home, news, id), held)
  {
    hide HomesPlus;
    forall s | (s in HomesPlus(home, news, id) || s in held) && Uncollectable(kinds, hdrs', s) ensures Marked(hdrs', s) {
      assert s.blk != h ==> Uncollectable(kinds, hdrs, s);
    }
  }

  /** A new block with one large object. */
  lemma SlotsNewLarge(kinds: seq<KindInfo>, hdrs: Headers, nonzero: set<Slot>, home: Homes, held: set<Slot>,
                      dropped: set<Slot>, queued: set<nat>, kept: set<Slot>, freed: set<Slot>,
                      h: nat, c: Class, nonzero': set<Slot>)
    requires SlotsOk(kinds, hdrs, nonzero, home, held, dropped, queued, kept, freed)
    requires h != 0 && h !in hdrs && h !in queued && c.kind < |kinds| && c.gran > MAXOBJGRANULES && nonzero' <= nonzero
    ensures SlotsOk(kinds, hdrs[h := NewHdr(c, kinds[c.kind].uncollectable)], nonzero',
                    home, held + {Slot(h, 0)}, dropped, queued, kept, freed)
    ensures Slot(h, 0) !in held
  {
    hide HdrOk, NewHdr;
    var s, hdrs' := Slot(h, 0), hdrs[h := NewHdr(c, kinds[c.kind].uncollectable)];
    assert hdrs'[h].cls == c by { NewHdrCls(c, kinds[c.kind].uncollectable); }
    NewHdrOk(hdrs, |kinds|, h, c, kinds[c.kind].uncollectable);
    assert forall t: Slot :: t.blk == h && IsSlot(hdrs', t) ==> t == s;
    ListedAreSlots(hdrs, home);
    var held' := held + {s};
    forall t | t in home ensures Fits(hdrs', t, home[t]) {
      assert Fits(hdrs, t, home[t]);
    }
    hide IsSlot, Marked, HomesOk, UncollectablesMarked;
    assert IsSlot(hdrs', s) by { LargeHasOne(hdrs', s); }
    forall t | IsSlot(hdrs', t)
      ensures One(t in home) + One(t in held') + One(t in dropped) + One(Pending(hdrs', queued, t)) == 1
    {
      assert t.blk != h ==> IsSlot(hdrs, t);
    }
    UncollectablesNewLarge(kinds, hdrs, hdrs', home, held, h);
  }

  lemma LargeHasOne(hdrs: Headers, s: Slot)
    requires s.blk in hdrs && hdrs[s.blk].cls.gran > MAXOBJGRANULES && s.idx == 0
    ensures IsSlot(hdrs, s)
  {
  }

  lemma UncollectablesNewLarge(kinds: seq<KindInfo>, hdrs: Headers, hdrs': Headers, home: Homes, held: set<Slot>, h: nat)
    requires UncollectablesMarked(kinds, hdrs, home, held) && h !in hdrs && h in hdrs' && hdrs' == hdrs[h := hdrs'[h]]
    requires hdrs'[h].cls.kind < |kinds| && (forall s :: s in home ==> s.blk != h) && IsSlot(hdrs', Slot(h, 0))
    requires forall s :: s in held ==> s.blk != h
    requires kinds[hdrs'[h].cls.kind].uncollectable ==> forall s: Slot :: s.blk == h && IsSlot(hdrs', s) ==> Marked(hdrs', s)
    ensures UncollectablesMarked(kinds, hdrs', home, held + {Slot(h, 0)})
  {
    forall s | (s in home || s in held + {Slot(h, 0)}) && Uncollectable(kinds, hdrs', s) ensures Marked(hdrs', s) {
      assert s.blk != h ==> Uncollectable(kinds, hdrs, s);
    }
  }

  /** Blocks wait for nothing when a kind gets its reclaim lists. */
  lemma QueueNewTable(hdrs: Headers, rlist: RLists, waiting: map<Class, seq<nat>>, queued: set<nat>,
                      rlist': RLists, waiting': map<Class, seq<nat>>)
    requires QueueOk(hdrs, rlist, waiting, queued) && rlist'.Keys == waiting'.Keys
    requires forall c :: c in rlist ==> c in rlist' && rlist'[c] == rlist[c] && waiting'[c] == waiting[c]
    requires forall c :: c in rlist' && c !in rlist ==> rlist'[c] == 0 && waiting'[c] == [] && c.gran <= MAXOBJGRANULES
    ensures QueueOk(hdrs, rlist', waiting', queued)
  {
    forall c | c in rlist' ensures WaitOk(hdrs, rlist'[c], waiting'[c], c, queued) {
      assert c in rlist ==> WaitOk(hdrs, rlist[c], waiting[c], c, queued);
    }
  }

  // -----------------------------------------------------------------------------------
  // Other changes
  // -----------------------------------------------------------------------------------

  lemma SlotsMoreFreed(kinds: seq<KindInfo>, hdrs: Headers, nonzero: set<Slot>, home: Homes, held: set<Slot>,
                       dropped: set<Slot>, queued: set<nat>, kept: set<Slot>, freed: set<Slot>, s: Slot)
    requires SlotsOk(kinds, hdrs, nonzero, home, held, dropped, queued, kept, freed)
    ensures SlotsOk(kinds, hdrs, nonzero, home, held, dropped, queued, kept, freed + {s})
  {
    hide HdrsOk, HomesOk, Shares, Clean, UncollectablesMarked;
  }

  /** Slots may move between lists of the same class. */
  lemma SlotsRehomed(kinds: seq<KindInfo>, hdrs: Headers, nonzero: set<Slot>, home: Homes, held: set<Slot>,
                     dropped: set<Slot>, queued: set<nat>, kept: set<Slot>, freed: set<Slot>,
                     moved: seq<Slot>, from: ListId, to: ListId)
    requires SlotsOk(kinds, hdrs, nonzero, home, held, dropped, queued, kept, freed)
    requires from.Cls() == to.Cls() && forall s :: s in moved ==> On(home, from, s)
    ensures SlotsOk(kinds, hdrs, nonzero, HomesPlus(home, moved, to), held, dropped, queued, kept, freed)
  {
    hide HdrOk, IsSlot, Marked, Pending;
    var home' := HomesPlus(home, moved, to);
    assert forall s :: s in home' ==> s in home && home'[s].Cls() == home[s].Cls();
    forall s | s in home' ensures Fits(hdrs, s, home'[s]) {
      assert Fits(hdrs, s, home[s]);
    }
    forall s | IsSlot(hdrs, s)
      ensures One(s in home') + One(s in held) + One(s in dropped) + One(Pending(hdrs, queued, s)) == 1
    {
      assert One(s in home) + One(s in held) + One(s in dropped) + One(Pending(hdrs, queued, s)) == 1;
    }
  }

  /** The client may do what it likes with the contents of what it holds. */
  lemma SlotsWritten(kinds: seq<KindInfo>, hdrs: Headers, nonzero: set<Slot>, home: Homes, held: set<Slot>,
                     dropped: set<Slot>, queued: set<nat>, kept: set<Slot>, freed: set<Slot>, s: Slot, nonzero': set<Slot>)
    requires SlotsOk(kinds, hdrs, nonzero, home, held, dropped, queued, kept, freed) && s in held
    requires nonzero' <= nonzero + {s}
    ensures SlotsOk(kinds, hdrs, nonzero', home, held, dropped, queued, kept, freed) && s !in home
  {
    hide HdrsOk, HomesOk, UncollectablesMarked, KeptOk, Marked, Pending;
    assert IsSlot(hdrs, s);
    assert One(s in home) + One(s in held) + One(s in dropped) + One(Pending(hdrs, queued, s)) == 1;
  }

  /** The header of a block after the marker has set a mark bit. */
  function MarkedHdr(h: Hdr, i: nat): Hdr {
    h.(marks := h.marks + {i}, nMarks := |h.marks + {i}|)
  }

  lemma SlotsMarked(kinds: seq<KindInfo>, hdrs: Headers, nonzero: set<Slot>, home: Homes, held: set<Slot>,
                    dropped: set<Slot>, queued: set<nat>, kept: set<Slot>, freed: set<Slot>, s: Slot)
    requires SlotsOk(kinds, hdrs, nonzero, home, held, dropped, queued, kept, freed) && IsSlot(hdrs, s)
    ensures SlotsOk(kinds, hdrs[s.blk := MarkedHdr(hdrs[s.blk], s.idx)], nonzero, home, held,
                    if Pending(hdrs, queued, s) then dropped + {s} else dropped, queued, kept, freed)
    ensures Alike(hdrs, hdrs[s.blk := MarkedHdr(hdrs[s.blk], s.idx)])
  {
    var hdrs' := hdrs[s.blk := MarkedHdr(hdrs[s.blk], s.idx)];
    var dropped' := if Pending(hdrs, queued, s) then dropped + {s} else dropped;
    assert forall t :: IsSlot(hdrs', t) <==> IsSlot(hdrs, t);
    assert forall t :: Marked(hdrs', t) <==> Marked(hdrs, t) || t == s;
    assert HdrsOk(hdrs', |kinds|);
    forall t | t in home ensures Fits(hdrs', t, home[t]) {
      assert Fits(hdrs, t, home[t]);
    }
    assert forall t :: Uncollectable(kinds, hdrs', t) <==> Uncollectable(kinds, hdrs, t);
    hide HdrOk, IsSlot, Marked, Uncollectable, Fits;
    forall t | IsSlot(hdrs', t)
      ensures One(t in home) + One(t in held) + One(t in dropped') + One(Pending(hdrs', queued, t)) == 1
    {
      assert One(t in home) + One(t in held) + One(t in dropped) + One(Pending(hdrs, queued, t)) == 1;
    }
    forall t | t in kept ensures !Pending(hdrs', queued, t) {
      assert !Pending(hdrs, queued, t);
    }
  }

  lemma QueueKeys(hdrs: Headers, rlist: RLists, waiting: map<Class, seq<nat>>, queued: set<nat>)
    requires QueueOk(hdrs, rlist, waiting, queued)
    ensures rlist.Keys == waiting.Keys
  {
  }

  lemma QueuedAreSmall(hdrs: Headers, rlist: RLists, waiting: map<Class, seq<nat>>, queued: set<nat>)
    requires QueueOk(hdrs, rlist, waiting, queued)
    ensures forall b :: b in queued ==> b in hdrs && hdrs[b].cls.gran <= MAXOBJGRANULES
  {
  }

  lemma QueueBlockGone(hdrs: Headers, rlist: RLists, waiting: map<Class, seq<nat>>, queued: set<nat>, b: nat)
    requires QueueOk(hdrs, rlist, waiting, queued) && b !in queued
    ensures QueueOk(hdrs - {b}, rlist, waiting, queued)
  {
    forall c | c in rlist ensures WaitOk(hdrs - {b}, rlist[c], waiting[c], c, queued) {
      assert WaitOk(hdrs, rlist[c], waiting[c], c, queued);
      assert forall k :: 0 <= k < |waiting[c]| ==> waiting[c][k] in waiting[c];
    }
  }

  /** The header of a block after the clearing of all marks, which spares uncollectable kinds. */
  function ClearedHdr(kinds: seq<KindInfo>, h: Hdr): Hdr {
    if h.cls.kind < |kinds| && kinds[h.cls.kind].uncollectable then h else h.(marks := {}, nMarks := 0)
  }

  function Cleared(kinds: seq<KindInfo>, hdrs: Headers): Headers {
    map b | b in hdrs :: ClearedHdr(kinds, hdrs[b])
  }

  lemma ClearedMarks(kinds: seq<KindInfo>, hdrs: Headers)
    ensures forall s :: Marked(Cleared(kinds, hdrs), s) <==> Marked(hdrs, s) && Uncollectable(kinds, hdrs, s)
    ensures forall s :: Uncollectable(kinds, Cleared(kinds, hdrs), s) <==> Uncollectable(kinds, hdrs, s)
  {
  }

  /** Marks may be cleared when no block waits to be swept. */
  lemma SlotsCleared(kinds: seq<KindInfo>, hdrs: Headers, nonzero: set<Slot>, home: Homes, held: set<Slot>,
                     dropped: set<Slot>, queued: set<nat>, kept: set<Slot>, freed: set<Slot>)
    requires SlotsOk(kinds, hdrs, nonzero, home, held, dropped, queued, kept, freed) && queued == {}
    ensures SlotsOk(kinds, Cleared(kinds, hdrs), nonzero, home, held, dropped, queued, kept, freed)
    ensures Alike(hdrs, Cleared(kinds, hdrs))
  {
    hide HdrOk, IsSlot, Marked, Uncollectable, Fits, Cleared, ClearedHdr;
    var hdrs' := Cleared(kinds, hdrs);
    ClearedFacts(kinds, hdrs, home);
    forall t | IsSlot(hdrs', t)
      ensures One(t in home) + One(t in held) + One(t in dropped) + One(Pending(hdrs', queued, t)) == 1
    {
      assert One(t in home) + One(t in held) + One(t in dropped) + One(Pending(hdrs, queued, t)) == 1;
    }
  }

  lemma ClearedFacts(kinds: seq<KindInfo>, hdrs: Headers, home: Homes)
    requires HdrsOk(hdrs, |kinds|) && HomesOk(hdrs, home)
    ensures var hdrs' := Cleared(kinds, hdrs);
      && HdrsOk(hdrs', |kinds|) && HomesOk(hdrs', home) && Alike(hdrs, hdrs')
      && (forall t :: IsSlot(hdrs', t) <==> IsSlot(hdrs, t))
      && (forall t :: Uncollectable(kinds, hdrs', t) <==> Uncollectable(kinds, hdrs, t))
      && (forall t :: Uncollectable(kinds, hdrs, t) && Marked(hdrs, t) ==> Marked(hdrs', t))
  {
    forall t | t in home ensures Fits(Cleared(kinds, hdrs), t, home[t]) {
      assert Fits(hdrs, t, home[t]);
    }
  }

  // -----------------------------------------------------------------------------------
  // After a collection
  // -----------------------------------------------------------------------------------

  /** What the marker has found, as one set of marks for every block. */
  type Marking = map<nat, set<nat>>

  /** The marker keeps the marks of uncollectable kinds, and marks nothing but slots. */
  ghost predicate MarkingOk(kinds: seq<KindInfo>, hdrs: Headers, marking: Marking) {
    && marking.Keys == hdrs.Keys
    && (forall b :: b in hdrs ==> marking[b] <= FirstN(Objs(hdrs[b].cls.gran)))
    && (forall b :: b in hdrs && hdrs[b].cls.kind < |kinds| && kinds[hdrs[b].cls.kind].uncollectable ==>
          hdrs[b].marks <= marking[b])
  }

  predicate Found(marking: Marking, s: Slot) {
    s.blk in marking && s.idx in marking[s.blk]
  }

  ghost function FoundSlots(marking: Marking): (r: set<Slot>)
    ensures forall s :: s in r <==> Found(marking, s)
  {
    var r := set b, i | b in marking && i in marking[b] :: Slot(b, i);
    assert forall s: Slot :: Found(marking, s) ==> s == Slot(s.blk, s.idx) && s in r;
    r
  }

  function Remarked(hdrs: Headers, marking: Marking): Headers
    requires marking.Keys == hdrs.Keys
  {
    map b | b in hdrs :: hdrs[b].(marks := marking[b], nMarks := |marking[b]|)
  }

  /** The header of block `b` without the marks of the slots in `gone`. */
  function UnmarkedHdr(b: nat, h: Hdr, gone: set<Slot>): Hdr {
    var marks := set i | i in h.marks && Slot(b, i) !in gone;
    h.(marks := marks, nMarks := |marks|)
  }

  function Unmarked(hdrs: Headers, gone: set<Slot>): Headers {
    map b | b in hdrs :: UnmarkedHdr(b, hdrs[b], gone)
  }

  /** Clearing one more mark. */
  lemma UnmarkOne(hdrs: Headers, gone: set<Slot>, s: Slot)
    requires s.blk in hdrs
    ensures var z := Unmarked(hdrs, gone);
      && s.blk in z
      && z[s.blk := UnmarkedHdr(s.blk, z[s.blk], {s})] == Unmarked(hdrs, gone + {s})
      && (s.idx !in z[s.blk].marks ==> z == Unmarked(hdrs, gone + {s}))
  {
    var z, w := Unmarked(hdrs, gone), Unmarked(hdrs, gone + {s});
    forall b | b in hdrs && b != s.blk ensures z[b] == w[b] {
      assert z[b].marks == w[b].marks;
    }
    assert UnmarkedHdr(s.blk, z[s.blk], {s}).marks == w[s.blk].marks;
    assert s.idx !in z[s.blk].marks ==> z[s.blk].marks == w[s.blk].marks;
  }

  lemma UnmarkNone(hdrs: Headers, nKinds: nat)
    requires HdrsOk(hdrs, nKinds)
    ensures Unmarked(hdrs, {}) == hdrs
  {
    var z := Unmarked(hdrs, {});
    forall b | b in hdrs ensures z[b] == hdrs[b] {
      assert HdrOk(hdrs[b], nKinds);
      assert z[b].marks == hdrs[b].marks;
    }
  }

  /** The slots on the lists that are not those of threads. */
  ghost function Globals(home: Homes): (r: set<Slot>)
    ensures forall s :: s in r <==> s in home && home[s].Global?
  {
    set s | s in home && home[s].Global?
  }

  lemma MarkingFacts(kinds: seq<KindInfo>, hdrs: Headers, marking: Marking, home: Homes)
    requires HdrsOk(hdrs, |kinds|) && HomesOk(hdrs, home) && MarkingOk(kinds, hdrs, marking)
    ensures var hdrs' := Unmarked(Remarked(hdrs, marking), Globals(home));
      && HdrsOk(hdrs', |kinds|) && HomesOk(hdrs', home) && Alike(hdrs, hdrs')
      && (forall s :: Marked(hdrs', s) <==> Found(marking, s) && s !in Globals(home))
      && HdrsOk(Remarked(hdrs, marking), |kinds|)
  {
    var hdrs' := Unmarked(Remarked(hdrs, marking), Globals(home));
    assert forall s: Slot :: s == Slot(s.blk, s.idx);
    forall s | s in home ensures Fits(hdrs', s, home[s]) {
      assert Fits(hdrs, s, home[s]);
    }
  }

  lemma RemarkedHomes(kinds: seq<KindInfo>, hdrs: Headers, marking: Marking, home: Homes)
    requires HdrsOk(hdrs, |kinds|) && HomesOk(hdrs, home) && MarkingOk(kinds, hdrs, marking)
    ensures HomesOk(Remarked(hdrs, marking), home)
    ensures forall s :: Found(marking, s) ==> IsSlot(hdrs, s)
    ensures forall s :: IsSlot(hdrs, s) <==> IsSlot(AfterMark(hdrs, marking, Globals(home)), s)
  {
    var hdrs' := Remarked(hdrs, marking);
    forall s | s in home ensures Fits(hdrs', s, home[s]) {
      assert Fits(hdrs, s, home[s]);
    }
  }

  ghost function AllSlots(hdrs: Headers): (r: set<Slot>)
    ensures forall s :: s in r <==> IsSlot(hdrs, s)
  {
    var r := set b, i | b in hdrs && i in FirstN(Objs(hdrs[b].cls.gran)) :: Slot(b, i);
    assert forall s: Slot :: IsSlot(hdrs, s) ==> s == Slot(s.blk, s.idx) && s in r;
    r
  }

  /** Nothing waits yet; what is neither held nor on a list is out of use. */
  lemma SlotsAfterMarking(kinds: seq<KindInfo>, hdrs: Headers, nonzero: set<Slot>, home: Homes, live: set<Slot>,
                          kept: set<Slot>)
    requires HdrsOk(hdrs, |kinds|) && HomesOk(hdrs, home) && Clean(kinds, nonzero, home)
    requires forall s :: s in live || (s in home && Uncollectable(kinds, hdrs, s)) ==> Marked(hdrs, s)
    requires forall s :: s in live || s in kept ==> IsSlot(hdrs, s) && s !in home
    ensures SlotsOk(kinds, hdrs, nonzero, home, live, AllSlots(hdrs) - live - home.Keys, {}, kept, {})
  {
    ListedAreSlots(hdrs, home);
    hide HdrsOk, HomesOk, Clean, IsSlot, Marked, AllSlots, Uncollectable;
  }

  /** The block of a free slot does not vanish, nor would the slot be taken for unused when it is in use again. */
  predicate Anchored(kinds: seq<KindInfo>, hdrs: Headers, s: Slot) {
    s.blk in hdrs && hdrs[s.blk].marks != {} && !Uncollectable(kinds, hdrs, s)
  }

  /** Marks, classes and what else does not change while blocks are looked at; those without marks vanish. */
  ghost predicate Visited(hdrs0: Headers, hdrs: Headers, todo: set<nat>) {
    && (forall b :: b in hdrs <==> b in hdrs0 && (b in todo || hdrs0[b].marks != {}))
    && (forall b :: b in hdrs ==> hdrs[b] == hdrs0[b].(next := hdrs[b].next))
  }

  /** A block without marks is given back. */
  lemma SlotsEmptyBlockGone(kinds: seq<KindInfo>, hdrs: Headers, nonzero: set<Slot>, home: Homes, held: set<Slot>,
                            dropped: set<Slot>, queued: set<nat>, kept: set<Slot>, freed: set<Slot>, b: nat)
    requires SlotsOk(kinds, hdrs, nonzero, home, held, dropped, queued, kept, freed)
    requires b in hdrs && b !in queued && hdrs[b].marks == {}
    requires (forall s :: s in held || s in kept ==> Marked(hdrs, s)) && forall s :: s in home ==> s.blk != b
    ensures SlotsOk(kinds, hdrs - {b}, nonzero, home, held, dropped - AllSlots(map[b := hdrs[b]]), queued, kept, freed)
    ensures forall s: Slot :: s.blk != b ==> (Marked(hdrs - {b}, s) <==> Marked(hdrs, s))
  {
    hide AllSlots;
    var hdrs' := hdrs - {b};
    var dropped' := dropped - AllSlots(map[b := hdrs[b]]);
    assert forall s :: s in home || s in held || s in kept ==> s.blk != b;
    GoneFacts(kinds, hdrs, b);
    forall s | s in home ensures Fits(hdrs', s, home[s]) {
      assert Fits(hdrs, s, home[s]);
    }
    hide HdrOk, HomesOk, IsSlot, Marked, Uncollectable, Fits;
    forall s | s in dropped' ensures IsSlot(hdrs', s) {
      assert IsSlot(hdrs, s);
      GoneSlots(hdrs, b, s);
    }
    forall s | IsSlot(hdrs', s)
      ensures One(s in home) + One(s in held) + One(s in dropped') + One(Pending(hdrs', queued, s)) == 1
    {
      assert IsSlot(hdrs, s) && s.blk != b;
      GoneSlots(hdrs, b, s);
      assert Pending(hdrs', queued, s) == Pending(hdrs, queued, s);
    }
  }

  lemma GoneFacts(kinds: seq<KindInfo>, hdrs: Headers, b: nat)
    requires b in hdrs
    ensures var hdrs' := hdrs - {b};
      && (forall s :: IsSlot(hdrs', s) <==> IsSlot(hdrs, s) && s.blk != b)
      && (forall s: Slot :: s.blk != b ==> (Marked(hdrs', s) <==> Marked(hdrs, s)))
      && (forall s :: Uncollectable(kinds, hdrs', s) ==> Uncollectable(kinds, hdrs, s))
  {
  }

  lemma GoneSlots(hdrs: Headers, b: nat, s: Slot)
    requires b in hdrs && IsSlot(hdrs, s)
    ensures s in AllSlots(map[b := hdrs[b]]) <==> s.blk == b
  {
    assert IsSlot(map[b := hdrs[b]], s) <==> s.blk == b;
  }

  /** A block is put on the queue: its unmarked slots are about to be swept. */
  lemma SlotsEnqueued(kinds: seq<KindInfo>, hdrs: Headers, nonzero: set<Slot>, home: Homes, held: set<Slot>,
                      dropped: set<Slot>, queued: set<nat>, kept: set<Slot>, freed: set<Slot>, b: nat, next: nat)
    requires SlotsOk(kinds, hdrs, nonzero, home, held, dropped, queued, kept, freed)
    requires b in hdrs && b !in queued
    requires (forall s :: s in held || s in kept ==> Marked(hdrs, s))
    requires forall s :: s in home && s.blk == b ==> Marked(hdrs, s)
    ensures SlotsOk(kinds, hdrs[b := hdrs[b].(next := next)], nonzero, home, held,
                    dropped - (set s | s in BlockUnmarked(hdrs, b)), queued + {b}, kept, freed)
    ensures forall s :: Marked(hdrs[b := hdrs[b].(next := next)], s) <==> Marked(hdrs, s)
  {
    hide BlockUnmarked;
    var hdrs' := hdrs[b := hdrs[b].(next := next)];
    var dropped' := dropped - set s | s in BlockUnmarked(hdrs, b);
    BlockFacts(hdrs, |kinds|, b);
    assert forall s :: IsSlot(hdrs', s) <==> IsSlot(hdrs, s);
    assert forall s :: Marked(hdrs', s) <==> Marked(hdrs, s);
    assert forall s :: Uncollectable(kinds, hdrs', s) <==> Uncollectable(kinds, hdrs, s);
    forall s | s in home ensures Fits(hdrs', s, home[s]) {
      assert Fits(hdrs, s, home[s]);
    }
    assert HdrOk(hdrs'[b], |kinds|);
    hide HdrOk, HomesOk, IsSlot, Marked, Uncollectable;
    forall s | IsSlot(hdrs', s)
      ensures One(s in home) + One(s in held) + One(s in dropped') + One(Pending(hdrs', queued + {b}, s)) == 1
    {
      assert One(s in home) + One(s in held) + One(s in dropped) + One(Pending(hdrs, queued, s)) == 1;
    }
  }

  lemma Enqueued(hdrs: Headers, rlist: RLists, waiting: map<Class, seq<nat>>, queued: set<nat>, b: nat)
    requires QueueOk(hdrs, rlist, waiting, queued) && b in hdrs && b !in queued && b != 0
    requires hdrs[b].cls in rlist && hdrs[b].cls in waiting
    ensures var c := hdrs[b].cls;
      QueueOk(hdrs[b := hdrs[b].(next := rlist[c])], rlist[c := b], waiting[c := [b] + waiting[c]], queued + {b})
  {
    hide WaitOk;
    var c := hdrs[b].cls;
    var hdrs' := hdrs[b := hdrs[b].(next := rlist[c])];
    forall d | d in rlist ensures WaitOk(hdrs', rlist[c := b][d], waiting[c := [b] + waiting[c]][d], d, queued + {b}) {
      if d == c {
        WaitPush(hdrs, rlist[c], waiting[c], c, queued, b);
      } else {
        WaitOther(hdrs, rlist[d], waiting[d], d, queued, b);
        WaitFrame(hdrs, hdrs', rlist[d], waiting[d], d, queued + {b}, b);
      }
    }
  }

  lemma WaitPush(hdrs: Headers, head: nat, l: seq<nat>, c: Class, queued: set<nat>, b: nat)
    requires WaitOk(hdrs, head, l, c, queued) && b in hdrs && b !in queued && hdrs[b].cls == c
    ensures WaitOk(hdrs[b := hdrs[b].(next := head)], b, [b] + l, c, queued + {b})
  {
    BlockChainPush(hdrs, head, l, b);
    hide BlockChain;
    PushDistinct(l, b);
  }

  lemma PushDistinct(l: seq<nat>, b: nat)
    requires b !in l && forall j, k :: 0 <= j < k < |l| ==> l[j] != l[k]
    ensures forall j, k :: 0 <= j < k < |[b] + l| ==> ([b] + l)[j] != ([b] + l)[k]
    ensures forall x :: x in [b] + l <==> x == b || x in l
  {
    var m := [b] + l;
    assert forall k :: 1 <= k < |m| ==> m[k] == l[k - 1] && m[k] in l;
  }

  lemma BlockChainPush(hdrs: Headers, head: nat, l: seq<nat>, b: nat)
    requires BlockChain(hdrs, head, l) && b in hdrs && b !in l
    ensures BlockChain(hdrs[b := hdrs[b].(next := head)], b, [b] + l)
  {
    var hdrs', m := hdrs[b := hdrs[b].(next := head)], [b] + l;
    forall k | 0 <= k < |m| ensures m[k] in hdrs' && hdrs'[m[k]].next == BlockAt(m, k + 1) {
      if k > 0 {
        assert m[k] == l[k - 1] && l[k - 1] in l;
        assert BlockAt(m, k + 1) == BlockAt(l, k);
      }
    }
  }

  lemma WaitFrame(hdrs: Headers, hdrs': Headers, head: nat, l: seq<nat>, c: Class, queued: set<nat>, b: nat)
    requires WaitOk(hdrs, head, l, c, queued) && b in hdrs && hdrs[b].cls != c
    requires b in hdrs' && hdrs' == hdrs[b := hdrs'[b]] && hdrs'[b].cls == hdrs[b].cls
    ensures WaitOk(hdrs', head, l, c, queued)
  {
    assert forall k :: 0 <= k < |l| ==> l[k] in l;
  }

  /** What is left of the lists when those of the kinds in `ready` have been given up. */
  ghost predicate Remaining(home0: Homes, home: Homes, ready: set<nat>) {
    && (forall s :: s in home <==> s in home0 && !(home0[s].Global? && home0[s].kind in ready))
    && (forall s :: s in home ==> s in home0 && home[s] == home0[s])
  }

  /** Slots on the lists of threads are marked, those on other lists are not. */
  ghost predicate LocalsMarked(hdrs: Headers, home: Homes) {
    forall s :: s in home ==> (home[s].Local? <==> Marked(hdrs, s))
  }

  ghost predicate Anchoring(kinds: seq<KindInfo>, hdrs: Headers, home: Homes, ready: set<nat>) {
    forall s :: s in home && home[s].Global? && home[s].kind !in ready ==> Anchored(kinds, hdrs, s)
  }

  lemma VisitNone(hdrs: Headers)
    ensures Visited(hdrs, hdrs, hdrs.Keys)
  {
  }

  lemma VisitOne(hdrs0: Headers, hdrs: Headers, todo: set<nat>, b: nat, nKinds: nat)
    requires Visited(hdrs0, hdrs, todo) && b in todo && b in hdrs && HdrsOk(hdrs0, nKinds)
    ensures HdrOk(hdrs[b], nKinds)
  {
  }

  lemma VisitedOne(hdrs0: Headers, before: Headers, hdrs: Headers, todo: set<nat>, b: nat)
    requires Visited(hdrs0, before, todo + {b}) && b in before && b !in todo
    requires hdrs.Keys == if before[b].marks == {} then before.Keys - {b} else before.Keys
    requires forall c :: c in hdrs ==> hdrs[c] == before[c].(next := hdrs[c].next)
    ensures Visited(hdrs0, hdrs, todo)
  {
  }

  /** A block that waits to be swept after a collection: it is in use, but not nearly full. */
  predicate Worthwhile(h: Hdr, ready: set<nat>) {
    h.cls.gran <= MAXOBJGRANULES && 0 < |h.marks| <= Objs(h.cls.gran) * 7 / 8 && h.cls.kind in ready
  }

  lemma WorthwhileYet(hdrs0: Headers, hdrs: Headers, todo: set<nat>, b: nat, ready: set<nat>)
    requires Visited(hdrs0, hdrs, todo) && b in hdrs
    ensures b in hdrs0 && Worthwhile(hdrs[b], ready) == Worthwhile(hdrs0[b], ready)
  {
  }

  lemma WorthwhileKept(hdrs0: Headers, hdrs: Headers, b: nat, ready: set<nat>)
    requires Visited(hdrs0, hdrs, {}) && b in hdrs0 && Worthwhile(hdrs0[b], ready)
    ensures b in hdrs && hdrs[b].cls == hdrs0[b].cls && Worthwhile(hdrs[b], ready)
  {
  }

  /** Sweeping such a block yields something. */
  lemma WorthwhileHasRoom(hdrs: Headers, nKinds: nat, queued: set<nat>, b: nat, ready: set<nat>)
    requires HdrsOk(hdrs, nKinds) && b in queued && b in hdrs && Worthwhile(hdrs[b], ready)
    ensures !NonePending(hdrs, queued, hdrs[b].cls)
  {
    var n := Objs(hdrs[b].cls.gran);
    FirstNCount(n);
    if forall i: nat :: i < n ==> i in hdrs[b].marks {
      SubsetIsSmaller(FirstN(n), hdrs[b].marks);
      assert false;
    }
    var i: nat :| i < n && i !in hdrs[b].marks;
    assert IsSlot(hdrs, Slot(b, i)) && Pending(hdrs, queued, Slot(b, i));
  }

  lemma {:induction false} FirstNCount(n: nat)
    ensures |FirstN(n)| == n
  {
    if n > 0 {
      FirstNCount(n - 1);
    }
  }

  lemma {:induction false} SubsetIsSmaller(a: set<nat>, b: set<nat>)
    requires a <= b
    ensures |a| <= |b|
  {
    assert b == a + (b - a);
  }

  /** Out of use is whatever is neither on a list nor held, except for unmarked slots of blocks that wait. */
  ghost predicate DroppedExactly(hdrs: Headers, home: Homes, held: set<Slot>, queued: set<nat>, dropped: set<Slot>) {
    forall s :: s in dropped <==> IsSlot(hdrs, s) && s !in home && s !in held && !Pending(hdrs, queued, s)
  }

  lemma SharesTellDropped(hdrs: Headers, home: Homes, held: set<Slot>, dropped: set<Slot>, queued: set<nat>)
    requires Shares(hdrs, home, held, dropped, queued)
    ensures DroppedExactly(hdrs, home, held, queued, dropped)
  {
    hide IsSlot, Pending;
    forall s ensures s in dropped <==> IsSlot(hdrs, s) && s !in home && s !in held && !Pending(hdrs, queued, s) {
      if IsSlot(hdrs, s) {
        assert One(s in home) + One(s in held) + One(s in dropped) + One(Pending(hdrs, queued, s)) == 1;
      }
    }
  }

  lemma VisitedMarks(hdrs0: Headers, hdrs: Headers, todo: set<nat>)
    requires Visited(hdrs0, hdrs, todo)
    ensures forall s :: Marked(hdrs0, s) <==> Marked(hdrs, s)
    ensures forall b :: b in hdrs ==> b in hdrs0 && hdrs[b].marks == hdrs0[b].marks && hdrs[b].cls == hdrs0[b].cls
  {
  }

  lemma RemainingSlots(kinds: seq<KindInfo>, hdrs: Headers, nonzero: set<Slot>, home0: Homes, home: Homes, ready: set<nat>)
    requires HomesOk(hdrs, home0) && Clean(kinds, nonzero, home0) && Remaining(home0, home, ready)
    requires LocalsMarked(hdrs, home0) && Anchoring(kinds, hdrs, home0, ready)
    ensures HomesOk(hdrs, home) && Clean(kinds, nonzero, home)
    ensures forall s :: s in home && Uncollectable(kinds, hdrs, s) ==> Marked(hdrs, s)
    ensures forall s :: s in home ==>
      hdrs[s.blk].marks != {} && (hdrs[s.blk].cls.kind in ready ==> Marked(hdrs, s))
  {
    forall s | s in home ensures Fits(hdrs, s, home[s]) {
      assert Fits(hdrs, s, home0[s]);
    }
  }

  function NothingWaiting(rlist: RLists): map<Class, seq<nat>> {
    map c | c in rlist :: []
  }

  lemma VisitedAll(hdrs0: Headers, hdrs: Headers)
    requires Visited(hdrs0, hdrs, {})
    ensures forall b :: b in hdrs <==> b in hdrs0 && hdrs0[b].marks != {}
  {
  }

  lemma QueueEmpty(hdrs: Headers, rlist: RLists, ready: set<nat>, kinds: seq<KindInfo>)
    requires TablesOk(rlist.Keys, ready, kinds) && forall c :: c in rlist ==> rlist[c] == 0
    ensures QueueOk(hdrs, rlist, NothingWaiting(rlist), {})
  {
  }

  /** The headers once the marker is done and the marks of free objects have been cleared. */
  function AfterMark(hdrs: Headers, marking: Marking, free: set<Slot>): Headers
    requires marking.Keys == hdrs.Keys
  {
    Unmarked(Remarked(hdrs, marking), free)
  }

  /** Some object of the block has been found that is not on a free list of the allocator. */
  predicate HasSurvivor(marking: Marking, home: Homes, b: nat) {
    b in marking && exists i :: i in marking[b] && !(Slot(b, i) in home && home[Slot(b, i)].Global?)
  }

  /** A block keeps some mark just if it has a survivor. */
  lemma MarksLeft(hdrs: Headers, marking: Marking, home: Homes, b: nat)
    requires marking.Keys == hdrs.Keys && b in hdrs
    ensures b in AfterMark(hdrs, marking, Globals(home))
    ensures AfterMark(hdrs, marking, Globals(home))[b].marks != {} <==> HasSurvivor(marking, home, b)
  {
    var m := AfterMark(hdrs, marking, Globals(home))[b].marks;
    assert forall i :: i in m <==> i in marking[b] && Slot(b, i) !in Globals(home);
    if HasSurvivor(marking, home, b) {
      var i :| i in marking[b] && !(Slot(b, i) in home && home[Slot(b, i)].Global?);
      assert i in m;
    } else {
      assert forall i :: i !in m;
    }
  }

  /**
   What must hold of kinds without reclaim lists, whose free lists outlast a collection: the blocks of
   free objects must survive, and the objects must not be uncollectable, as their marks are gone.
   */
  ghost predicate FreeListsLast(kinds: seq<KindInfo>, hdrs: Headers, home: Homes, ready: set<nat>, marking: Marking) {
    forall s :: s in home && home[s].Global? && home[s].kind !in ready ==>
      HasSurvivor(marking, home, s.blk) && !Uncollectable(kinds, hdrs, s)
  }

  lemma LastingMeansAnchored(kinds: seq<KindInfo>, hdrs: Headers, home: Homes, ready: set<nat>, marking: Marking)
    requires marking.Keys == hdrs.Keys && HomesOk(hdrs, home)
    ensures Anchoring(kinds, AfterMark(hdrs, marking, Globals(home)), home, ready)
        <==> FreeListsLast(kinds, hdrs, home, ready, marking)
  {
    hide HasSurvivor;
    var hdrs' := AfterMark(hdrs, marking, Globals(home));
    forall s | s in home
      ensures Anchored(kinds, hdrs', s) <==> HasSurvivor(marking, home, s.blk) && !Uncollectable(kinds, hdrs, s)
    {
      assert Fits(hdrs, s, home[s]);
      MarksLeft(hdrs, marking, home, s.blk);
    }
  }

  ghost function PendingSlots(hdrs: Headers, queued: set<nat>): set<Slot> {
    set s | s in AllSlots(hdrs) && Pending(hdrs, queued, s)
  }

  /** Four disjoint sets have all slots. */
  lemma SlotsAddUp(all: set<Slot>, a: set<Slot>, b: set<Slot>, c: set<Slot>, d: set<Slot>)
    requires forall s :: s in all <==> s in a || s in b || s in c || s in d
    requires a !! b && a !! c && a !! d && b !! c && b !! d && c !! d
    ensures |all| == |a| + |b| + |c| + |d|
  {
    assert all == a + b + c + d;
    assert (a + b + c) !! d && (a + b) !! c;
  }
}
