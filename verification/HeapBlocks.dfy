/**
 The allocator of heap blocks: allocating, splitting, freeing and coalescing blocks, and growing
 the heap. Sizes count heap blocks of 4096 bytes, except for the sizes of objects.
 */
module HeapBlocks {
  import opened Sets
  import opened FreeLists
  import opened HeapTiling
  import M = MarkPhase
  import BL = BlackList

  /** Blocks are merged only if the sum of their sizes in bytes is positive as a signed word. */
  const HALF: nat := 0x8_0000_0000_0000
  /** The end of the address space, in blocks. */
  const ADDR_END: nat := 2 * HALF

  /** The free lists are well linked, and the byte count of each is the sum of its blocks' sizes. */
  ghost predicate ListsFit(hdrs: Headers, heads: seq<nat>, freeBlks: seq<nat>, lists: seq<seq<nat>>, home: map<nat, nat>) {
    && 0 !in hdrs && Linked(hdrs, heads, lists, home)
    && |freeBlks| == N_HBLK_FLS + 1
    && forall i :: 0 <= i < |freeBlks| ==> freeBlks[i] == Sum(hdrs, lists[i])
  }

  /** Free blocks are exactly those on lists and those in `limbo`; those not in `odd` are on the list for their size. */
  ghost predicate Homed(hdrs: Headers, home: map<nat, nat>, limbo: set<nat>, odd: set<nat>) {
    && (forall b :: b in home || b in limbo ==> b in hdrs && hdrs[b].Free?)
    && (forall b :: b in hdrs && hdrs[b].Free? ==> b in home || b in limbo)
    && (forall b :: b in limbo ==> b !in home)
    && (forall b :: b in home && b !in odd ==> home[b] == FlIndex(NBlks(hdrs, b)))
  }

  /** Free block `b` and the block after it could be merged. */
  predicate Mergeable(hdrs: Headers, b: nat) {
    && b in hdrs && hdrs[b].Free?
    && var c := b + hdrs[b].nblks; c in hdrs && hdrs[c].Free? && hdrs[b].nblks + hdrs[c].nblks < HALF
  }

  /** The heap after free block `b` and the one after it have been merged, if they can be. */
  function Joined(hdrs: Headers, b: nat): Headers {
    if Mergeable(hdrs, b) then
      var c := b + hdrs[b].nblks;
      (hdrs - {c})[b := Free(hdrs[b].nblks + hdrs[c].nblks, 0, 0, true)]
    else hdrs
  }

  /** Free block `p` ends where block `h` starts, and they can be merged. */
  predicate MergeableBefore(hdrs: Headers, p: nat, h: nat) {
    Mergeable(hdrs, p) && p + NBlks(hdrs, p) == h
  }

  /** `z` is the heap after free block `h` has been merged with its successor and then with its predecessor. */
  ghost predicate Coalesced(hdrs: Headers, h: nat, z: Headers) {
    var y := Joined(hdrs, h);
    && (forall p :: MergeableBefore(y, p, h) ==> SameBlocks(Joined(y, p), z))
    && ((forall p :: !MergeableBefore(y, p, h)) ==> SameBlocks(y, z))
  }

  lemma JoinedSame(hdrs: Headers, z: Headers, b: nat)
    requires SameBlocks(hdrs, z)
    ensures SameBlocks(Joined(hdrs, b), Joined(z, b))
  {
    SameBlocksMergeable(hdrs, z);
  }

  lemma MergedIsJoined(hdrs: Headers, z: Headers, b: nat, c: nat)
    requires MergedInto(hdrs, z, b, c) && Mergeable(hdrs, b) && c == b + hdrs[b].nblks
    requires UsedOf(z) == UsedOf(hdrs) && AllMapped(hdrs) && AllMapped(z)
    ensures SameBlocks(Joined(hdrs, b), z)
  {
    forall d | d in z && d != b && z[d].Used? ensures z[d] == hdrs[d] {
      assert d in UsedOf(z) && UsedOf(hdrs)[d] == hdrs[d];
    }
  }

  /** The two merges, one after the other, with changes of links in between. */
  lemma CoalescedInSteps(hdrs: Headers, y: Headers, x: Headers, z: Headers, h: nat, prev: nat)
    requires SameBlocks(Joined(hdrs, h), y) && SameBlocks(x, z)
    requires forall p :: MergeableBefore(y, p, h) ==> p == prev
    requires SameBlocks(if MergeableBefore(y, prev, h) then Joined(y, prev) else y, x)
    ensures Coalesced(hdrs, h, z)
  {
    hide Joined, SameBlocks;
    var w := Joined(hdrs, h);
    SameSizes(w, y);
    SameBlocksMergeable(w, y);
    JoinedSame(w, y, prev);
    assert forall p :: MergeableBefore(w, p, h) <==> MergeableBefore(y, p, h);
    if MergeableBefore(y, prev, h) {
      SameBlocksTrans(Joined(w, prev), Joined(y, prev), x);
      SameBlocksTrans(Joined(w, prev), x, z);
    } else {
      SameBlocksTrans(w, y, x);
      SameBlocksTrans(w, x, z);
    }
  }

  lemma CoalescedSame(hdrs: Headers, h: nat, x: Headers, z: Headers)
    requires Coalesced(hdrs, h, x) && SameBlocks(x, z)
    ensures Coalesced(hdrs, h, z)
  {
    hide Joined, SameBlocks;
    var y := Joined(hdrs, h);
    if p :| MergeableBefore(y, p, h) {
      forall q | MergeableBefore(y, q, h) ensures SameBlocks(Joined(y, q), z) {
        SameBlocksTrans(Joined(y, q), x, z);
      }
    } else {
      SameBlocksTrans(y, x, z);
    }
  }

  lemma SameSizes(hdrs: Headers, z: Headers)
    requires SameBlocks(hdrs, z)
    ensures forall b :: NBlks(hdrs, b) == NBlks(z, b)
  {
  }

  /** No two free blocks are adjacent, unless the heap is so `big` that some could not be merged. */
  ghost predicate NoneMergeable(hdrs: Headers, big: bool) {
    big || forall b :: !Mergeable(hdrs, b)
  }

  ghost predicate AllMapped(hdrs: Headers) {
    forall b :: b in hdrs && hdrs[b].Free? ==> hdrs[b].mapped
  }

  lemma SameBlocksMergeable(hdrs: Headers, z: Headers)
    requires SameBlocks(hdrs, z)
    ensures forall b :: Mergeable(z, b) <==> Mergeable(hdrs, b)
  {
  }

  lemma SameBlocksTrans(a: Headers, b: Headers, c: Headers)
    requires SameBlocks(a, b) && SameBlocks(b, c)
    ensures SameBlocks(a, c)
  {
  }

  /** Merging creates no new opportunity to merge but that of the block that was swallowed. */
  lemma MergeMergeable(hdrs: Headers, z: Headers, b: nat, c: nat, m: Hdr)
    requires Follows(hdrs, b, c) && hdrs[b].Free? && hdrs[c].Free?
    requires m.Free? && m.nblks == hdrs[b].nblks + hdrs[c].nblks && z == (hdrs - {c})[b := m]
    ensures Mergeable(z, b) ==> Mergeable(hdrs, c)
    ensures forall d :: d != b && Mergeable(z, d) ==> Mergeable(hdrs, d)
  {
  }

  /** What merging block `c` into `b` does, and what becomes mergeable by it. */
  ghost predicate MergedInto(hdrs: Headers, z: Headers, b: nat, c: nat) {
    && b in hdrs && c in hdrs && b in z && z[b].Free? && z.Keys == hdrs.Keys - {c}
    && NBlks(z, b) == NBlks(hdrs, b) + NBlks(hdrs, c)
    && (forall d :: d in z && d != b ==> z[d].Free? == hdrs[d].Free? && NBlks(z, d) == NBlks(hdrs, d))
    && (Mergeable(z, b) ==> Mergeable(hdrs, c))
    && (forall d :: d != b && Mergeable(z, d) ==> Mergeable(hdrs, d))
  }

  /** Only block `h` and the one before it may be mergeable. */
  ghost predicate OnlyAround(hdrs: Headers, h: nat, big: bool) {
    big || forall d: nat :: Mergeable(hdrs, d) ==> d == h || d + NBlks(hdrs, d) == h
  }

  /** Freeing creates none but those with the freed block. */
  lemma FreeMergeable(hdrs: Headers, z: Headers, h: nat, m: Hdr, big: bool)
    requires h in hdrs && hdrs[h].Used? && m.Free? && z == hdrs[h := m] && NoneMergeable(hdrs, big)
    ensures OnlyAround(z, h, big)
  {
    forall d: nat | !big && Mergeable(z, d) && d != h ensures d + NBlks(z, d) == h {
      assert !Mergeable(hdrs, d);
    }
  }

  lemma HomedLess(hdrs: Headers, z: Headers, home: map<nat, nat>, limbo: set<nat>, odd: set<nat>, b: nat)
    requires Homed(hdrs, home, limbo, odd) && SameBlocks(hdrs, z) && b in home
    ensures Homed(z, home - {b}, limbo + {b}, odd)
  {
  }

  lemma HomedMore(hdrs: Headers, z: Headers, home: map<nat, nat>, limbo: set<nat>, odd: set<nat>, b: nat)
    requires Homed(hdrs, home, limbo, odd) && SameBlocks(hdrs, z) && b in limbo
    ensures Homed(z, home[b := FlIndex(NBlks(hdrs, b))], limbo - {b}, odd)
  {
  }

  lemma HomedAbsorb(hdrs: Headers, home: map<nat, nat>, limbo: set<nat>, odd: set<nat>, b: nat, c: nat, m: Hdr)
    requires Homed(hdrs, home, limbo, odd) && b in limbo && c in limbo && b != c && m.Free?
    ensures Homed((hdrs - {c})[b := m], home, limbo - {c}, odd)
  {
  }

  lemma HomedFreed(hdrs: Headers, home: map<nat, nat>, h: nat, m: Hdr)
    requires Homed(hdrs, home, {}, {}) && h in hdrs && hdrs[h].Used? && m.Free?
    ensures Homed(hdrs[h := m], home, {h}, {})
  {
  }

  // -----------------------------------------------------------------------------------
  // The lists, one operation at a time
  // -----------------------------------------------------------------------------------

  lemma RemoveFits(hdrs: Headers, heads: seq<nat>, freeBlks: seq<nat>, lists: seq<seq<nat>>, home: map<nat, nat>, i: nat, k: nat)
    requires ListsFit(hdrs, heads, freeBlks, lists, home) && i < |lists| && k < |lists[i]|
    ensures lists[i][k] in home && NBlks(hdrs, lists[i][k]) <= freeBlks[i]
    ensures ListsFit(Unlinked(hdrs, lists[i], k), heads[i := if k == 0 then At(lists[i], 1) else heads[i]],
                     freeBlks[i := freeBlks[i] - NBlks(hdrs, lists[i][k])], lists[i := Without(lists[i], k)],
                     home - {lists[i][k]})
    ensures SameBlocks(hdrs, Unlinked(hdrs, lists[i], k))
  {
    var z, lists' := Unlinked(hdrs, lists[i], k), lists[i := Without(lists[i], k)];
    RemoveKeepsLinked(hdrs, heads, lists, home, i, k);
    UnlinkKeepsBlocks(hdrs, lists[i], k);
    SumWithout(hdrs, lists[i], k);
    hide Linked;
    forall j | 0 <= j < |lists| ensures Sum(z, lists'[j]) == Sum(hdrs, lists'[j]) {
      SumSame(hdrs, z, lists'[j]);
    }
  }

  lemma AddFits(hdrs: Headers, heads: seq<nat>, freeBlks: seq<nat>, lists: seq<seq<nat>>, home: map<nat, nat>,
                i: nat, h: nat, nblks: nat, mapped: bool)
    requires ListsFit(hdrs, heads, freeBlks, lists, home) && i < |lists| && h !in home && h != 0
    ensures ListsFit(Fronted(hdrs, heads[i], h, nblks, mapped), heads[i := h], freeBlks[i := freeBlks[i] + nblks],
                     lists[i := [h] + lists[i]], home[h := i])
  {
    var z, lists' := Fronted(hdrs, heads[i], h, nblks, mapped), lists[i := [h] + lists[i]];
    AddKeepsLinked(hdrs, heads, lists, home, i, h, nblks, mapped);
    forall j | 0 <= j < |lists| ensures Sum(z, lists[j]) == Sum(hdrs, lists[j]) {
      SumSame(hdrs, z, lists[j]);
    }
    assert NBlks(z, h) == nblks;
  }

  lemma ReplaceSums(hdrs: Headers, heads: seq<nat>, lists: seq<seq<nat>>, home: map<nat, nat>,
                    i: nat, k: nat, n: nat, nblks: nat, mapped: bool)
    requires Linked(hdrs, heads, lists, home) && i < |lists| && k < |lists[i]| && n !in home && n != 0
    ensures var z := Replaced(hdrs, lists[i], k, n, nblks, mapped);
      && Sum(z, Put(lists[i], k, n)) == Sum(hdrs, lists[i]) - NBlks(hdrs, lists[i][k]) + nblks
      && forall j :: 0 <= j < |lists| && j != i ==> Sum(z, lists[j]) == Sum(hdrs, lists[j])
  {
    var z := Replaced(hdrs, lists[i], k, n, nblks, mapped);
    forall j | 0 <= j < |lists[i]| && j != k ensures NBlks(hdrs, lists[i][j]) == NBlks(z, lists[i][j]) {
      assert lists[i][j] in home;
    }
    SumReplaced(hdrs, z, lists[i], k, n);
    forall j | 0 <= j < |lists| && j != i ensures Sum(z, lists[j]) == Sum(hdrs, lists[j]) {
      SumSame(hdrs, z, lists[j]);
    }
    assert NBlks(z, n) == nblks;
  }

  lemma ReplaceFits(hdrs: Headers, heads: seq<nat>, freeBlks: seq<nat>, lists: seq<seq<nat>>, home: map<nat, nat>,
                    i: nat, k: nat, n: nat, nblks: nat, mapped: bool)
    requires ListsFit(hdrs, heads, freeBlks, lists, home) && i < |lists| && k < |lists[i]| && n !in home && n != 0
    requires nblks <= NBlks(hdrs, lists[i][k])
    ensures lists[i][k] in home && NBlks(hdrs, lists[i][k]) <= freeBlks[i]
    ensures ListsFit(Replaced(hdrs, lists[i], k, n, nblks, mapped), heads[i := if k == 0 then n else heads[i]],
                     freeBlks[i := freeBlks[i] - (NBlks(hdrs, lists[i][k]) - nblks)], lists[i := Put(lists[i], k, n)],
                     (home - {lists[i][k]})[n := i])
  {
    ReplaceKeepsLinked(hdrs, heads, lists, home, i, k, n, nblks, mapped);
    ReplaceSums(hdrs, heads, lists, home, i, k, n, nblks, mapped);
    SumWithout(hdrs, lists[i], k);
    hide Linked;
  }

  /** Headers of blocks on lists are untouched. */
  lemma OthersFit(hdrs: Headers, z: Headers, heads: seq<nat>, freeBlks: seq<nat>, lists: seq<seq<nat>>, home: map<nat, nat>)
    requires ListsFit(hdrs, heads, freeBlks, lists, home) && 0 !in z
    requires forall b :: b in home ==> b in z && b in hdrs && z[b] == hdrs[b]
    ensures ListsFit(z, heads, freeBlks, lists, home)
  {
    forall i | 0 <= i < |lists| ensures ListOk(z, heads[i], lists[i]) && Sum(z, lists[i]) == Sum(hdrs, lists[i]) {
      forall k | 0 <= k < |lists[i]| ensures NodeOk(z, lists[i], k) {
        assert NodeOk(hdrs, lists[i], k);
      }
      SumSame(hdrs, z, lists[i]);
    }
  }

  lemma AfterNext(hdrs: Headers, z: Headers, h: nat, next: nat, big: bool)
    requires MergedInto(hdrs, z, h, next) && OnlyAround(hdrs, h, big) && next > h
    ensures (big || !Mergeable(z, h)) && OnlyAround(z, h, big)
    ensures forall b :: b in z && b < h ==> b in hdrs && z[b].Free? == hdrs[b].Free? && NBlks(z, b) == NBlks(hdrs, b)
    ensures forall b :: b in hdrs && b < h ==> b in z
  {
    assert big || !Mergeable(hdrs, next);
    forall d: nat | !big && Mergeable(z, d) && d != h ensures d + NBlks(z, d) == h {
      assert Mergeable(hdrs, d);
    }
  }

  lemma AfterPrev(hdrs: Headers, z: Headers, h: nat, prev: nat, big: bool)
    requires MergedInto(hdrs, z, prev, h) && OnlyAround(hdrs, h, big) && (big || !Mergeable(hdrs, h)) && prev != h
    requires forall b :: b in hdrs && hdrs[b].Free? && b + NBlks(hdrs, b) == h ==> b == prev
    ensures NoneMergeable(z, big)
  {
    forall d | !big && d != prev ensures !Mergeable(z, d) {
      assert Mergeable(z, d) ==> Mergeable(hdrs, d);
    }
  }

  lemma LimboFacts(hdrs: Headers, home: map<nat, nat>, h: nat, owner: map<nat, nat>)
    requires Homed(hdrs, home, {h}, {}) && Tiled(hdrs, owner)
    ensures h !in home && h in hdrs && hdrs[h].Free? && h != 0 && NBlks(hdrs, h) == hdrs[h].nblks
  {
  }

  lemma SameBlocksMapped(hdrs: Headers, z: Headers)
    requires SameBlocks(hdrs, z)
    ensures AllMapped(hdrs) <==> AllMapped(z)
    ensures forall big :: NoneMergeable(hdrs, big) <==> NoneMergeable(z, big)
  {
    SameBlocksMergeable(hdrs, z);
  }

  lemma NewGoes(hdrs: Headers, p: nat, m: Hdr)
    requires p !in hdrs
    ensures UsedOf(hdrs)[p := m] - {p} == UsedOf(hdrs)
  {
  }

  function Min(a: nat, b: nat): nat {
    if a <= b then a else b
  }

  function Max(a: nat, b: nat): nat {
    if a <= b then b else a
  }

  function Diff(a: nat, b: nat): nat {
    if a <= b then 0 else a - b
  }

  lemma NewMergeable(hdrs: Headers, z: Headers, home: map<nat, nat>, p: nat, m: Hdr, big: bool)
    requires p !in hdrs && m.Used? && z == hdrs[p := m] && NoneMergeable(hdrs, big) && Homed(hdrs, home, {}, {}) && AllMapped(hdrs)
    ensures NoneMergeable(z, big) && Homed(z, home, {}, {}) && AllMapped(z)
  {
    forall d | !big ensures !Mergeable(z, d) {
      assert !Mergeable(hdrs, d);
    }
  }

  lemma {:induction false} SizesAdd(b: nat, m: nat, c: nat, n: nat, all: set<nat>)
    requires b + m <= c && Cells(b, m) <= all && Cells(c, n) <= all
    ensures m + n <= |all|
  {
    CellsCount(b, m);
    CellsCount(c, n);
    assert Cells(b, m) !! Cells(c, n);
    SubsetCardinality(Cells(b, m) + Cells(c, n), all);
  }

  /** In a heap of less than half the address space adjacent free blocks are mergeable. */
  lemma AdjacentIsMergeable(hdrs: Headers, owner: map<nat, nat>, b: nat, c: nat)
    requires Tiled(hdrs, owner) && |owner.Keys| < HALF && Follows(hdrs, b, c) && hdrs[b].Free? && hdrs[c].Free?
    ensures Mergeable(hdrs, b)
  {
    forall x | x in Cells(b, hdrs[b].nblks) + Cells(c, hdrs[c].nblks) ensures x in owner {
      assert InBlock(hdrs, b, x) || InBlock(hdrs, c, x);
    }
    SizesAdd(b, hdrs[b].nblks, c, hdrs[c].nblks, owner.Keys);
  }

  lemma SizesPositive(hdrs: Headers, owner: map<nat, nat>)
    requires Tiled(hdrs, owner)
    ensures forall b :: b in hdrs ==> BlkSize(hdrs[b]) >= 1
  {
  }

  lemma FrontedSame(hdrs: Headers, first: nat, h: nat)
    requires h in hdrs && hdrs[h].Free?
    ensures SameBlocks(hdrs, Fronted(hdrs, first, h, hdrs[h].nblks, hdrs[h].mapped))
  {
  }

  lemma UsedNoMore(hdrs: Headers, h: nat, m: Hdr)
    requires m.Free?
    ensures UsedOf(hdrs[h := m]) == UsedOf(hdrs) - {h}
  {
  }

  class BlockHeap {
    var hdrs: Headers
    var heads: seq<nat>
    var freeBlks: seq<nat>
    var largeFree: nat
    var heapSize: nat
    var dropped: nat
    var dropCount: nat
    var blackLists: BL.Lists
    const blLimit: nat
    ghost var lists: seq<seq<nat>>
    ghost var home: map<nat, nat>
    ghost var owner: map<nat, nat>

    /** The allocator as it starts: no heap, and 61 empty lists. */
    constructor (blackLists: BL.Lists, blLimit: nat)
      requires blackLists.Valid()
      ensures Valid() && hdrs == map[] && owner == map[] && heapSize == largeFree == 0
      ensures this.blackLists == blackLists && this.blLimit == blLimit
    {
      hdrs, heads, freeBlks := map[], seq(N_HBLK_FLS + 1, i => 0), seq(N_HBLK_FLS + 1, i => 0);
      largeFree, heapSize, dropped, dropCount := 0, 0, 0, 0;
      this.blackLists, this.blLimit := blackLists, blLimit;
      lists, home, owner := seq(N_HBLK_FLS + 1, i => []), map[], map[];
    }

    ghost predicate Fit()
      reads this`hdrs, this`heads, this`freeBlks, this`lists, this`home
    {
      ListsFit(hdrs, heads, freeBlks, lists, home)
    }

    /** The blocks tile the heap, whose size is counted. */
    ghost predicate Lying()
      reads this`hdrs, this`owner, this`heapSize
    {
      Tiled(hdrs, owner) && heapSize == |owner.Keys|
    }

    /** `h` is the `k`-th block on list `i`. */
    ghost predicate OnList(h: nat, i: nat, k: nat)
      reads this`lists
    {
      i < |lists| && k < |lists[i]| && lists[i][k] == h
    }

    lemma OnListFacts(h: nat, i: nat, k: nat)
      requires Fit() && OnList(h, i, k)
      ensures i < |heads| && i < |freeBlks| && h in hdrs && hdrs[h].Free? && h in home && home[h] == i
      ensures hdrs[h].prev == At(lists[i], k - 1) && hdrs[h].next == At(lists[i], k + 1)
      ensures h != 0 && 0 !in hdrs && NBlks(hdrs, h) <= freeBlks[i]
      ensures hdrs[h].prev == 0 <==> k == 0
      ensures hdrs[h].next == 0 <==> k + 1 == |lists[i]|
    {
      assert NodeOk(hdrs, lists[i], k);
      if k > 0 {
        assert NodeOk(hdrs, lists[i], k - 1);
      }
      if k + 1 < |lists[i]| {
        assert NodeOk(hdrs, lists[i], k + 1);
      }
      SumWithout(hdrs, lists[i], k);
    }

    /** `GC_remove_from_fl_at`. */
    method RemoveFromFlAt(h: nat, index: nat, ghost k: nat)
      requires Fit() && OnList(h, index, k)
      modifies this`hdrs, this`heads, this`freeBlks, this`lists, this`home
      ensures Fit() && SameBlocks(old(hdrs), hdrs)
      ensures home == old(home) - {h} && lists == old(lists[index := Without(lists[index], k)])
      ensures index < old(|freeBlks|) && freeBlks == old(freeBlks[index := Diff(freeBlks[index], NBlks(hdrs, h))])
    {
      hide ListsFit, SameBlocks, Without;
      OnListFacts(h, index, k);
      RemoveFits(hdrs, heads, freeBlks, lists, home, index, k);
      ghost var l := lists[index];
      var hhdr := hdrs[h];
      if hhdr.prev == 0 {
        heads := heads[index := hhdr.next];
      } else {
        hdrs := SetNext(hdrs, hhdr.prev, hhdr.next);
      }
      freeBlks := freeBlks[index := freeBlks[index] - hhdr.nblks];
      if hhdr.next != 0 {
        hdrs := SetPrev(hdrs, hhdr.next, hhdr.prev);
      }
      assert hdrs == Unlinked(old(hdrs), l, k);
      assert heads == old(heads)[index := if k == 0 then At(l, 1) else old(heads)[index]];
      lists, home := lists[index := Without(l, k)], home - {h};
    }

    /** `GC_add_to_fl`: free block `h` goes to the front of the list for its size. */
    method AddToFl(h: nat)
      requires Fit() && h in hdrs && hdrs[h].Free? && h !in home && h != 0
      modifies this`hdrs, this`heads, this`freeBlks, this`lists, this`home
      ensures Fit() && SameBlocks(old(hdrs), hdrs)
      ensures home == old(home[h := FlIndex(hdrs[h].nblks)])
      ensures lists == old(var i := FlIndex(hdrs[h].nblks); if i < |lists| then lists[i := [h] + lists[i]] else lists)
    {
      var hhdr := hdrs[h];
      var index := FlIndex(hhdr.nblks);
      HeadFacts(index);
      AddFits(hdrs, heads, freeBlks, lists, home, index, h, hhdr.nblks, hhdr.mapped);
      FrontedSame(hdrs, heads[index], h);
      hide ListsFit, SameBlocks;
      var second := heads[index];
      heads := heads[index := h];
      freeBlks := freeBlks[index := freeBlks[index] + hhdr.nblks];
      hdrs := hdrs[h := Free(hhdr.nblks, 0, second, hhdr.mapped)];
      if second != 0 {
        hdrs := SetPrev(hdrs, second, h);
      }
      assert hdrs == Fronted(old(hdrs), second, h, hhdr.nblks, hhdr.mapped);
      lists, home := lists[index := [h] + lists[index]], home[h := index];
    }

    lemma HeadFacts(i: nat)
      requires Fit() && i <= N_HBLK_FLS
      ensures i < |heads| == |lists| == |freeBlks| && 0 !in hdrs
      ensures heads[i] == 0 <==> lists[i] == []
      ensures heads[i] != 0 ==> heads[i] in hdrs && hdrs[heads[i]].Free? && heads[i] in home && OnList(heads[i], i, 0)
    {
      if lists[i] != [] {
        assert NodeOk(hdrs, lists[i], 0);
      }
    }

    /** Every block on a list is the `k`-th of it for some `k`. */
    lemma SomewhereOnList(b: nat) returns (k: nat)
      requires Fit() && b in home
      ensures OnList(b, home[b], k) && b in hdrs && hdrs[b].Free? && b != 0
    {
      k :| k < |lists[home[b]]| && lists[home[b]][k] == b;
      OnListFacts(b, home[b], k);
    }

    /** `GC_remove_from_fl`: for a block on the list for its size. */
    method RemoveFromFl(b: nat)
      requires Fit() && b in home && home[b] == FlIndex(NBlks(hdrs, b))
      modifies this`hdrs, this`heads, this`freeBlks, this`lists, this`home
      ensures Fit() && SameBlocks(old(hdrs), hdrs)
      ensures home == old(home) - {b}
    {
      ghost var k := SomewhereOnList(b);
      RemoveFromFlAt(b, FlIndex(hdrs[b].nblks), k);
    }

    // ---------------------------------------------------------------------------------
    // What is always true
    // ---------------------------------------------------------------------------------

    /** True with and without unmapping of free blocks. */
    ghost predicate Sound()
      reads this`hdrs, this`heads, this`freeBlks, this`lists, this`home, this`owner, this`heapSize, this`largeFree
    {
      && Fit() && Lying() && Homed(hdrs, home, {}, {})
      && largeFree == |FreeCells(hdrs, owner)|
    }

    /** If free blocks are never unmapped. */
    ghost predicate Valid()
      reads this`hdrs, this`heads, this`freeBlks, this`lists, this`home, this`owner, this`heapSize, this`largeFree, this`blackLists
    {
      Sound() && NoneMergeable(hdrs, heapSize >= HALF) && AllMapped(hdrs) && blackLists.Valid()
    }

    /** `GC_prev_block`: the nearest block that starts below address `h`, or null. */
    method PrevBlock(h: nat) returns (p: nat)
      requires 0 !in hdrs
      ensures p != 0 ==> p in hdrs && p < h
      ensures forall b :: p < b < h ==> b !in hdrs
    {
      p := if h == 0 then 0 else h - 1;
      while p > 0 && p !in hdrs
        invariant p <= h && (h > 0 ==> p < h)
        invariant forall b :: p < b < h ==> b !in hdrs
      {
        p := p - 1;
      }
    }

    /** `get_block_ending_at`. */
    method BlockEndingAt(h: nat) returns (p: nat)
      requires Tiled(hdrs, owner)
      ensures p != 0 ==> p in hdrs && p + BlkSize(hdrs[p]) == h
      ensures forall b :: b in hdrs && b + BlkSize(hdrs[b]) == h ==> b == p
    {
      p := PrevBlock(h);
      forall b | b in hdrs && b + BlkSize(hdrs[b]) == h ensures b == p {
        if b < p {
          assert InBlock(hdrs, b, p) && InBlock(hdrs, p, p);
        }
      }
      if p != 0 && p + BlkSize(hdrs[p]) != h {
        p := 0;
      }
    }

    /** `GC_free_block_ending_at`. */
    method FreeBlockEndingAt(h: nat) returns (p: nat)
      requires Tiled(hdrs, owner)
      ensures p != 0 ==> p in hdrs && hdrs[p].Free? && p + hdrs[p].nblks == h
      ensures forall b :: b in hdrs && hdrs[b].Free? && b + hdrs[b].nblks == h ==> b == p
    {
      p := BlockEndingAt(h);
      if p != 0 && hdrs[p].Used? {
        p := 0;
      }
    }

    /** Free block `c` is merged into free block `b`; neither is on a list. */
    method Absorb(b: nat, c: nat)
      requires Fit() && Lying() && Follows(hdrs, b, c) && hdrs[b].Free? && hdrs[c].Free?
      requires b !in home && c !in home
      modifies this`hdrs, this`owner
      ensures Fit() && Lying() && owner.Keys == old(owner.Keys)
      ensures hdrs == old((hdrs - {c})[b := hdrs[b].(nblks := hdrs[b].nblks + hdrs[c].nblks)])
      ensures FreeCells(hdrs, owner) == old(FreeCells(hdrs, owner)) && UsedOf(hdrs) == old(UsedOf(hdrs))
    {
      hide ListsFit, Tiled, FreeCells, UsedOf, Owned;
      var m := hdrs[b].(nblks := hdrs[b].nblks + hdrs[c].nblks);
      var z := (hdrs - {c})[b := m];
      MergeTiled(hdrs, owner, b, c, m);
      HomedInHeaders();
      OthersFit(hdrs, z, heads, freeBlks, lists, home);
      owner := Owned(owner, b, m.nblks);
      hdrs := z;
    }

    lemma HomedInHeaders()
      requires Fit()
      ensures 0 !in hdrs && forall b :: b in home ==> b in hdrs && hdrs[b].Free?
    {
      forall b | b in home ensures b in hdrs && hdrs[b].Free? {
        var k := SomewhereOnList(b);
      }
    }

    /** Block `h` comes out of use, but is not on a list yet. */
    method MakeFree(h: nat)
      requires Fit() && Lying() && h in hdrs && hdrs[h].Used?
      modifies this`hdrs
      ensures Fit() && Lying() && hdrs == old(hdrs[h := Free(BlkSize(hdrs[h]), 0, 0, true)])
      ensures |FreeCells(hdrs, owner)| == old(|FreeCells(hdrs, owner)| + BlkSize(hdrs[h]))
      ensures UsedOf(hdrs) == old(UsedOf(hdrs)) - {h}
    {
      hide ListsFit, Tiled, Cells, FreeCells, UsedOf;
      var m := Free(BlkSize(hdrs[h]), 0, 0, true);
      RetagTiled(hdrs, owner, h, m);
      CellsCount(h, m.nblks);
      HomedInHeaders();
      OthersFit(hdrs, hdrs[h := m], heads, freeBlks, lists, home);
      UsedNoMore(hdrs, h, m);
      hdrs := hdrs[h := m];
    }

    // ---------------------------------------------------------------------------------
    // Freeing a block
    // ---------------------------------------------------------------------------------

    /** All is well, but for free block `h`, which is on no list and may be mergeable. */
    ghost predicate Loose(h: nat)
      reads this`hdrs, this`heads, this`freeBlks, this`lists, this`home, this`owner, this`heapSize
    {
      && Fit() && Lying() && Homed(hdrs, home, {h}, {}) && AllMapped(hdrs)
      && OnlyAround(hdrs, h, heapSize >= HALF)
    }

    /** Nothing but the division of free space into blocks has changed. */
    twostate predicate SameHeap()
      reads this`hdrs, this`owner
    {
      && owner.Keys == old(owner.Keys) && UsedOf(hdrs) == old(UsedOf(hdrs))
      && FreeCells(hdrs, owner) == old(FreeCells(hdrs, owner))
    }

    /** Free block `b` is taken off the list it is on. */
    method TakeFree(b: nat, h: nat)
      requires Fit() && Lying() && Homed(hdrs, home, {h}, {}) && b in hdrs && hdrs[b].Free? && b != h
      modifies this`hdrs, this`heads, this`freeBlks, this`lists, this`home
      ensures Fit() && Lying() && Homed(hdrs, home, {h, b}, {}) && SameHeap() && SameBlocks(old(hdrs), hdrs)
      ensures b !in home && h !in home
    {
      hide ListsFit, Tiled, SameBlocks;
      RemoveFromFl(b);
      SameBlocksTiled(old(hdrs), hdrs, owner);
      HomedLess(old(hdrs), hdrs, old(home), {h}, {}, b);
      assert {h} + {b} == {h, b};
    }

    /** Free block `c` becomes part of free block `b` before it; one of them is `h`, the other on a list. */
    method TakeAndAbsorb(b: nat, c: nat, h: nat)
      requires Loose(h) && Follows(hdrs, b, c) && hdrs[b].Free? && hdrs[c].Free? && h in {b, c} && b != c
      modifies this`hdrs, this`heads, this`freeBlks, this`lists, this`home, this`owner
      ensures Fit() && Lying() && SameHeap() && Homed(hdrs, home, {b}, {}) && AllMapped(hdrs)
      ensures MergedInto(old(hdrs), hdrs, b, c)
    {
      hide ListsFit, Tiled, Homed, Mergeable;
      TakeFree(if h == b then c else b, h);
      ghost var z := hdrs;
      ghost var m := hdrs[b].(nblks := hdrs[b].nblks + hdrs[c].nblks);
      SameBlocksMergeable(old(hdrs), z);
      assert {h, if h == b then c else b} == {b, c};
      HomedAbsorb(hdrs, home, {b, c}, {}, b, c, m);
      assert {b, c} - {c} == {b};
      MergeMergeable(z, (z - {c})[b := m], b, c, m);
      Absorb(b, c);
    }

    static lemma NothingToJoin(hdrs: Headers, h: nat)
      ensures SameBlocks(hdrs, hdrs) && (!Mergeable(hdrs, h) ==> Joined(hdrs, h) == hdrs)
    {
    }

    /** The successor is merged into free block `h` if possible. */
    method CoalesceNext(h: nat)
      requires Loose(h) && h in hdrs && hdrs[h].Free?
      modifies this`hdrs, this`heads, this`freeBlks, this`lists, this`home, this`owner
      ensures Loose(h) && SameHeap() && h in hdrs && hdrs[h].Free? && (heapSize >= HALF || !Mergeable(hdrs, h))
      ensures forall b :: b < h ==> (b in hdrs <==> b in old(hdrs))
      ensures forall b :: b < h && b in hdrs ==> hdrs[b].Free? == old(hdrs[b].Free?) && NBlks(hdrs, b) == old(NBlks(hdrs, b))
      ensures SameBlocks(Joined(old(hdrs), h), hdrs)
    {
      hide ListsFit, Homed, Joined;
      NothingToJoin(hdrs, h);
      var next := h + hdrs[h].nblks;
      SizesPositive(hdrs, owner);
      if next in hdrs && hdrs[next].Free? && hdrs[next].mapped && hdrs[h].nblks + hdrs[next].nblks < HALF {
        assert Mergeable(hdrs, h);
        hide Tiled, Mergeable;
        TakeAndAbsorb(h, next, h);
        MergedIsJoined(old(hdrs), hdrs, h, next);
        AfterNext(old(hdrs), hdrs, h, next, heapSize >= HALF);
      }
    }

    /** Free block `h` is merged into its predecessor if possible; what remains is free block `r`. */
    method CoalescePrev(h: nat, prev: nat) returns (r: nat)
      requires Loose(h) && h in hdrs && hdrs[h].Free? && (heapSize >= HALF || !Mergeable(hdrs, h))
      requires prev != 0 ==> prev in hdrs && hdrs[prev].Free? && prev + NBlks(hdrs, prev) == h
      requires forall b :: b in hdrs && hdrs[b].Free? && b + NBlks(hdrs, b) == h ==> b == prev
      modifies this`hdrs, this`heads, this`freeBlks, this`lists, this`home, this`owner
      ensures Fit() && Lying() && SameHeap() && Homed(hdrs, home, {r}, {}) && AllMapped(hdrs)
      ensures r in hdrs && hdrs[r].Free? && NoneMergeable(hdrs, heapSize >= HALF)
      ensures SameBlocks(old(if MergeableBefore(hdrs, prev, h) then Joined(hdrs, prev) else hdrs), hdrs)
    {
      hide ListsFit, Homed, Joined;
      NothingToJoin(hdrs, h);
      r := h;
      SizesPositive(hdrs, owner);
      if prev != 0 && hdrs[prev].mapped && hdrs[h].nblks + hdrs[prev].nblks < HALF {
        assert Mergeable(hdrs, prev);
        hide Tiled, Mergeable;
        TakeAndAbsorb(prev, h, h);
        MergedIsJoined(old(hdrs), hdrs, prev, h);
        AfterPrev(old(hdrs), hdrs, h, prev, heapSize >= HALF);
        r := prev;
      }
    }

    method StartFreeing(h: nat)
      requires Valid() && h in hdrs && hdrs[h].Used?
      modifies this`hdrs
      ensures Loose(h) && h in hdrs && hdrs[h].Free? && owner == old(owner)
      ensures hdrs == old(hdrs[h := Free(BlkSize(hdrs[h]), 0, 0, true)])
      ensures |FreeCells(hdrs, owner)| == old(|FreeCells(hdrs, owner)| + BlkSize(hdrs[h]))
      ensures UsedOf(hdrs) == old(UsedOf(hdrs)) - {h}
    {
      hide ListsFit, Tiled;
      ghost var m := Free(BlkSize(hdrs[h]), 0, 0, true);
      FreeMergeable(hdrs, hdrs[h := m], h, m, heapSize >= HALF);
      HomedFreed(hdrs, home, h, m);
      MakeFree(h);
    }

    method FinishFreeing(h: nat)
      requires Fit() && Lying() && Homed(hdrs, home, {h}, {}) && AllMapped(hdrs) && NoneMergeable(hdrs, heapSize >= HALF) && blackLists.Valid()
      requires largeFree == |FreeCells(hdrs, owner)| && h in hdrs && hdrs[h].Free?
      modifies this`hdrs, this`heads, this`freeBlks, this`lists, this`home
      ensures Valid() && SameHeap() && SameBlocks(old(hdrs), hdrs)
    {
      hide ListsFit, Tiled, Mergeable, Homed, FlIndex, AllMapped, SameBlocks, Cells;
      LimboFacts(hdrs, home, h, owner);
      AddToFl(h);
      SameBlocksTiled(old(hdrs), hdrs, owner);
      SameBlocksMergeable(old(hdrs), hdrs);
      SameBlocksMapped(old(hdrs), hdrs);
      HomedMore(old(hdrs), hdrs, old(home), {h}, {}, h);
      assert {h} - {h} == {};
    }

    /** `GC_freehblk`. */
    method FreeBlk(hbp: nat) returns (aborted: bool)
      requires Valid() && hbp in hdrs
      modifies this`hdrs, this`heads, this`freeBlks, this`lists, this`home, this`owner, this`largeFree
      ensures aborted <==> old(hdrs[hbp].Free? || BlkSize(hdrs[hbp]) >= HALF)
      ensures aborted ==> hdrs == old(hdrs)
      ensures Valid() && owner.Keys == old(owner.Keys)
      ensures !aborted ==> UsedOf(hdrs) == old(UsedOf(hdrs)) - {hbp}
      ensures !aborted ==> largeFree == old(largeFree + BlkSize(hdrs[hbp]))
      ensures !aborted ==> Coalesced(old(hdrs[hbp := Free(BlkSize(hdrs[hbp]), 0, 0, true)]), hbp, hdrs)
    {
      hide ListsFit, Tiled, Homed, Joined, SameBlocks, Coalesced, Mergeable, FreeCells, UsedOf, NoneMergeable, AllMapped;
      var size := BlkSize(hdrs[hbp]);
      if size >= HALF {
        return true;
      }
      if hdrs[hbp].Free? {
        return true;
      }
      StartFreeing(hbp);
      ghost var freed := hdrs;
      var h := Coalesce(hbp);
      ghost var x := hdrs;
      largeFree := largeFree + size;
      FinishFreeing(h);
      CoalescedSame(freed, hbp, x, hdrs);
      return false;
    }

    /** Block `h`, which has become free, is merged with its neighbours where that is possible; what results is block `r`. */
    method Coalesce(h: nat) returns (r: nat)
      requires Loose(h) && h in hdrs && hdrs[h].Free?
      modifies this`hdrs, this`heads, this`freeBlks, this`lists, this`home, this`owner
      ensures Fit() && Lying() && SameHeap() && Homed(hdrs, home, {r}, {}) && AllMapped(hdrs)
      ensures r in hdrs && hdrs[r].Free? && NoneMergeable(hdrs, heapSize >= HALF)
      ensures Coalesced(old(hdrs), h, hdrs)
    {
      hide ListsFit, Tiled, Homed, Joined, SameBlocks, Coalesced, Mergeable, FreeCells, UsedOf, NoneMergeable, AllMapped;
      SizesPositive(hdrs, owner);
      var prev := FreeBlockEndingAt(h);
      CoalesceNext(h);
      ghost var y := hdrs;
      SizesPositive(hdrs, owner);
      assert forall b :: b in hdrs && hdrs[b].Free? && b + NBlks(hdrs, b) == h ==> b < h;
      r := CoalescePrev(h, prev);
      OnlyOneBefore(y, h, prev);
      NothingToJoin(hdrs, h);
      CoalescedInSteps(old(hdrs), y, hdrs, hdrs, h, prev);
    }

    static lemma OnlyOneBefore(hdrs: Headers, h: nat, prev: nat)
      requires forall b :: b in hdrs && hdrs[b].Free? && b + NBlks(hdrs, b) == h ==> b == prev
      ensures forall p :: MergeableBefore(hdrs, p, h) ==> p == prev
    {
    }

    /** Adjacent free blocks have been merged, if the heap is smaller than half the address space. */
    lemma NoTwoAdjacentFree(b: nat, c: nat)
      requires Valid() && heapSize < HALF && Follows(hdrs, b, c) && hdrs[b].Free?
      ensures hdrs[c].Used?
    {
      if hdrs[c].Free? {
        AdjacentIsMergeable(hdrs, owner, b, c);
      }
    }

    // ---------------------------------------------------------------------------------
    // Growing the heap
    // ---------------------------------------------------------------------------------

    /** A header is installed for the new memory, which is then freed like any block. */
    method Install(p: nat, n: nat) returns (aborted: bool)
      requires Valid() && p >= 2 && n >= 1 && Vacant(owner, p, n)
      modifies this`hdrs, this`heads, this`freeBlks, this`lists, this`home, this`owner, this`largeFree, this`heapSize
      ensures aborted <==> n >= HALF
      ensures !aborted ==> Valid() && heapSize == old(heapSize) + n && largeFree == old(largeFree) + n
      ensures !aborted ==> owner.Keys == old(owner.Keys) + Cells(p, n) && UsedOf(hdrs) == old(UsedOf(hdrs))
      ensures !aborted ==> Coalesced(old(hdrs)[p := Free(n, 0, 0, true)], p, hdrs)
    {
      hide Coalesced,  ListsFit, Tiled, Homed, FreeCells, UsedOf, Owned;
      var m := Used(n * HBLKSIZE, M.PtrFree);
      assert BlkSize(m) == n;
      NewTiled(hdrs, owner, p, m);
      NewCells(hdrs, owner, p, m);
      HomedInHeaders();
      OthersFit(hdrs, hdrs[p := m], heads, freeBlks, lists, home);
      hdrs := hdrs[p := m];
      owner := Owned(owner, p, n);
      heapSize := heapSize + n;
      assert hdrs[p := Free(n, 0, 0, true)] == old(hdrs)[p := Free(n, 0, 0, true)];
      NewMergeable(old(hdrs), hdrs, home, p, m, heapSize >= HALF);
      aborted := FreeBlk(p);
      NewGoes(old(hdrs), p, m);
    }

    /** The loops at the start of `GC_add_to_heap`: what can be used of new memory. */
    static method Usable(start: nat, bytes: nat) returns (p: nat, n: nat)
      requires bytes > 0 && start < ADDR_END && bytes <= ADDR_END
      ensures p == Max(start, 2)
      ensures n == Diff(Min(start + bytes, ADDR_END - 1), p)
    {
      p, n := start, bytes;
      while p <= 1
        invariant start <= p <= Max(start, 2) && n == start + bytes - p && n > 0
        decreases 2 - p
      {
        p := p + 1;
        n := n - 1;
        if n == 0 {
          p := Max(start, 2);
          return;
        }
      }
      var endp := (p + n) % ADDR_END;
      while endp <= p
        invariant 0 < n <= start + bytes - p && endp == (p + n) % ADDR_END
        invariant n == start + bytes - p || p + n + 1 >= ADDR_END
        decreases n
      {
        n := n - 1;
        if n == 0 {
          return;
        }
        endp := if endp == 0 then ADDR_END - 1 else endp - 1;
      }
    }

    /**
     `GC_add_to_heap`: memory of `bytes` heap blocks from block address `start` on. What lies in
     the first two or at the end of the address space is not used; `p` and `n` are what is left.
     */
    method AddToHeap(start: nat, bytes: nat) returns (aborted: bool, p: nat, n: nat)
      requires Valid() && bytes > 0 && start < ADDR_END && bytes <= ADDR_END && Vacant(owner, start, bytes)
      modifies this`hdrs, this`heads, this`freeBlks, this`lists, this`home, this`owner, this`largeFree, this`heapSize
      ensures p == Max(start, 2) && n == Diff(Min(start + bytes, ADDR_END - 1), p)
      ensures aborted <==> n >= HALF
      ensures !aborted ==> Valid() && heapSize == old(heapSize) + n && largeFree == old(largeFree) + n
      ensures !aborted ==> owner.Keys == old(owner.Keys) + Cells(p, n) && UsedOf(hdrs) == old(UsedOf(hdrs))
      ensures !aborted ==> if n == 0 then hdrs == old(hdrs) else Coalesced(old(hdrs)[p := Free(n, 0, 0, true)], p, hdrs)
    {
      hide Coalesced;
      p, n := Usable(start, bytes);
      aborted := false;
      if n > 0 {
        assert Vacant(owner, p, n) by {
          assert forall x :: InRange(x, p, n) ==> InRange(x, start, bytes);
        }
        aborted := Install(p, n);
      } else {
        assert Cells(p, n) == {};
      }
    }
  }

  lemma NothingAround(hdrs: Headers, h: nat, z: Headers)
    requires Coalesced(hdrs, h, z) && !Mergeable(hdrs, h) && forall p :: !MergeableBefore(hdrs, p, h)
    ensures SameBlocks(hdrs, z)
  {
  }

  lemma TooLargeToMerge(hdrs: Headers, z: Headers)
    requires SameBlocks(map[2 := Free(HALF - 1, 0, 0, true)], hdrs)
    requires Coalesced(hdrs[HALF + 1 := Free(1, 0, 0, true)], HALF + 1, z)
    ensures Follows(z, 2, HALF + 1) && z[2].Free? && z[HALF + 1].Free?
  {
    NothingAround(hdrs[HALF + 1 := Free(1, 0, 0, true)], HALF + 1, z);
  }

  method AlmostHalf(blackLists: BL.Lists) returns (bh: BlockHeap)
    requires blackLists.Valid()
    ensures fresh(bh) && bh.Valid() && bh.heapSize == HALF - 1 && bh.owner.Keys == Cells(2, HALF - 1)
    ensures SameBlocks(map[2 := Free(HALF - 1, 0, 0, true)], bh.hdrs)
  {
    hide Coalesced, SameBlocks, Mergeable, Cells, UsedOf, Vacant, bh.Valid;
    bh := new BlockHeap(blackLists, 0);
    NothingThere();
    var _, _, _ := bh.AddToHeap(2, HALF - 1);
    FirstStays(bh.hdrs);
  }

  lemma NothingThere()
    ensures Vacant(map[], 2, HALF - 1)
  {
  }

  lemma BehindTheFirst(owner: map<nat, nat>)
    requires owner.Keys == Cells(2, HALF - 1)
    ensures Vacant(owner, HALF + 1, 1)
  {
  }

  /**
   In a heap of half the address space they need not have been: two additions to the heap that
   lie side by side stay apart.
   */
  method AdjacentFreeBlocks(blackLists: BL.Lists) returns (bh: BlockHeap)
    requires blackLists.Valid()
    ensures bh.Valid() && bh.heapSize == HALF
    ensures Follows(bh.hdrs, 2, HALF + 1) && bh.hdrs[2].Free? && bh.hdrs[HALF + 1].Free?
  {
    hide Coalesced, SameBlocks, Mergeable, Follows, Vacant, Cells;
    hide bh.Valid;
    bh := AlmostHalf(blackLists);
    ghost var hdrs := bh.hdrs;
    BehindTheFirst(bh.owner);
    var _, _, n := bh.AddToHeap(HALF + 1, 1);
    TooLargeToMerge(hdrs, bh.hdrs);
  }

  lemma FirstStays(z: Headers)
    requires Coalesced(map[][2 := Free(HALF - 1, 0, 0, true)], 2, z)
    ensures SameBlocks(map[2 := Free(HALF - 1, 0, 0, true)], z)
  {
    NothingAround(map[][2 := Free(HALF - 1, 0, 0, true)], 2, z);
  }
}
