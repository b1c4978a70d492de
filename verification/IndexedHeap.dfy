/**
 The allocator together with the header index: whatever it does to the blocks of the heap, the
 index goes on standing for them.
 */
module IndexedHeap {
  import opened FreeLists
  import opened HeapTiling
  import opened HeapBlocks
  import opened HeapPlacement
  import opened HeaderIndex
  import M = MarkPhase

  /** Whose block an address is follows from the headers. */
  lemma OwnerIsDetermined(hdrs: Headers, owner: map<nat, nat>, owner': map<nat, nat>)
    requires Tiled(hdrs, owner) && Tiled(hdrs, owner')
    ensures owner == owner'
  {
    forall x | x in owner ensures x in owner' && owner'[x] == owner[x] {
      assert InBlock(hdrs, owner[x], x);
    }
    forall x | x in owner' ensures x in owner {
      assert InBlock(hdrs, owner'[x], x);
    }
  }

  /** The index says nothing about links. */
  lemma LinksDoNotMatter(nodes: Nodes, hdrs: Headers, owner: map<nat, nat>, z: Headers, owner': map<nat, nat>)
    requires Refines(nodes, hdrs, owner) && SameBlocks(hdrs, z) && Tiled(z, owner')
    ensures Refines(nodes, z, owner')
  {
    SameBlocksTiled(hdrs, z, owner);
    OwnerIsDetermined(z, owner, owner');
    forall x ensures Expected(z, owner', x) == Expected(hdrs, owner, x) {
    }
  }

  // -----------------------------------------------------------------------------------
  // Freeing a block
  // -----------------------------------------------------------------------------------

  /** The header of a block that has been merged into the one before it is removed from the index. */
  method RemoveMerged(idx: Index, hdrs: Headers, ghost owner: map<nat, nat>, b: nat) returns (ghost owner': map<nat, nat>)
    requires idx.Valid() && Refines(idx.nodes, hdrs, owner)
    modifies idx`nodes
    ensures idx.Valid() && Refines(idx.nodes, Joined(hdrs, b), owner')
  {
    hide idx.Valid, CellAt, Refines, Tiled;
    owner' := owner;
    if Mergeable(hdrs, b) {
      var c := b + hdrs[b].nblks;
      BlocksAreApart(idx.nodes, hdrs, owner, b, c);
      ghost var nodes := idx.nodes;
      idx.RemoveHeader(c);
      MergeRefines(nodes, idx.nodes, hdrs, owner, b, c, Free(hdrs[b].nblks + hdrs[c].nblks, 0, 0, true));
      owner' := Owned(owner, b, hdrs[b].nblks + hdrs[c].nblks);
    }
  }

  lemma BlocksAreApart(nodes: Nodes, hdrs: Headers, owner: map<nat, nat>, b: nat, c: nat)
    requires Refines(nodes, hdrs, owner) && b in hdrs && c in hdrs && c == b + BlkSize(hdrs[b])
    ensures b != c && CellAt(nodes, c) == Head
  {
  }

  /** What `GC_remove_counts` relies on: the inside of a block has counts everywhere, or nowhere. */
  lemma CountsAllOrNone(nodes: Nodes, hdrs: Headers, owner: map<nat, nat>, h: nat)
    requires Refines(nodes, hdrs, owner) && h in hdrs
    ensures hdrs[h].Used? ==> forall x :: h < x < h + BlkSize(hdrs[h]) ==> CellAt(nodes, x) != Nil
    ensures hdrs[h].Free? ==> forall x :: h < x < h + BlkSize(hdrs[h]) ==> CellAt(nodes, x) == Nil
  {
    if hdrs[h].Used? {
      CountsAreThere(nodes, hdrs, owner, h);
    } else {
      forall x | h < x < h + BlkSize(hdrs[h]) ensures CellAt(nodes, x) == Nil {
        OwnersOf(hdrs, owner, h, x);
      }
    }
  }

  /** The index after block `h` has become free, before it is merged with its neighbours. */
  method RemoveBlockCounts(idx: Index, hdrs: Headers, ghost owner: map<nat, nat>, h: nat)
    requires idx.Valid() && Refines(idx.nodes, hdrs, owner) && h in hdrs
    modifies idx`nodes
    ensures idx.Valid()
    ensures Refines(idx.nodes, hdrs[h := Free(BlkSize(hdrs[h]), 0, 0, true)], owner)
  {
    hide idx.Valid, CellAt;
    CountsAllOrNone(idx.nodes, hdrs, owner, h);
    ghost var nodes, m := idx.nodes, Free(BlkSize(hdrs[h]), 0, 0, true);
    idx.RemoveCounts(h, BlkSize(hdrs[h]));
    if hdrs[h].Used? {
      FreeRefines(nodes, idx.nodes, hdrs, owner, h, m);
    } else {
      FreeStaysFree(nodes, idx.nodes, hdrs, owner, h, m);
    }
  }

  lemma FreeStaysFree(nodes: Nodes, z: Nodes, hdrs: Headers, owner: map<nat, nat>, h: nat, m: Hdr)
    requires Refines(nodes, hdrs, owner) && h in hdrs && hdrs[h].Free? && m.Free? && BlkSize(m) == BlkSize(hdrs[h])
    requires forall x: nat :: CellAt(z, x) == CellAt(nodes, x)
    ensures Refines(z, hdrs[h := m], owner)
  {
    RetagTiled(hdrs, owner, h, m);
  }

  /** Both neighbours of free block `h` are merged with it where that is possible: what the index loses. */
  method RemoveNeighbours(idx: Index, hdrs: Headers, ghost owner: map<nat, nat>, h: nat, prev: nat, ghost z: Headers,
                          ghost owner': map<nat, nat>)
    requires idx.Valid() && Refines(idx.nodes, hdrs, owner) && Coalesced(hdrs, h, z) && Tiled(z, owner')
    requires OnlyPrev(hdrs, h, prev)
    modifies idx`nodes
    ensures idx.Valid() && Refines(idx.nodes, z, owner')
  {
    hide idx.Valid, Refines, Tiled, SameBlocks, Joined, Mergeable;
    ghost var o := RemoveMerged(idx, hdrs, owner, h);
    var y := Joined(hdrs, h);
    if MergeableBefore(y, prev, h) {
      o := RemoveMerged(idx, y, o, prev);
      LinksDoNotMatter(idx.nodes, Joined(y, prev), o, z, owner');
    } else {
      LinksDoNotMatter(idx.nodes, y, o, z, owner');
    }
  }

  /** No block but `prev` ends where block `h` starts and can be merged with it, once `h` has taken in its successor. */
  ghost predicate OnlyPrev(hdrs: Headers, h: nat, prev: nat) {
    forall p :: MergeableBefore(Joined(hdrs, h), p, h) ==> p == prev
  }

  /** Who ends where a block starts is not changed by the merge of that block with its successor. */
  lemma StillBefore(hdrs: Headers, h: nat, prev: nat)
    requires forall b :: b in hdrs && hdrs[b].Free? && b + hdrs[b].nblks == h ==> b == prev
    requires h in hdrs && hdrs[h].Free? && hdrs[h].nblks >= 1
    ensures OnlyPrev(hdrs, h, prev)
  {
  }

  /** `GC_freehblk`, with what it does to the index. */
  method FreeIndexed(bh: BlockHeap, idx: Index, hbp: nat) returns (aborted: bool)
    requires bh.Valid() && hbp in bh.hdrs && idx.Valid() && Refines(idx.nodes, bh.hdrs, bh.owner)
    modifies bh`hdrs, bh`heads, bh`freeBlks, bh`lists, bh`home, bh`owner, bh`largeFree, idx`nodes
    ensures aborted <==> old(bh.hdrs[hbp].Free? || BlkSize(bh.hdrs[hbp]) >= HALF)
    ensures aborted ==> bh.hdrs == old(bh.hdrs) && idx.nodes == old(idx.nodes)
    ensures bh.Valid() && bh.owner.Keys == old(bh.owner.Keys)
    ensures !aborted ==> UsedOf(bh.hdrs) == old(UsedOf(bh.hdrs)) - {hbp}
    ensures !aborted ==> Coalesced(old(bh.hdrs[hbp := Free(BlkSize(bh.hdrs[hbp]), 0, 0, true)]), hbp, bh.hdrs)
    ensures !aborted ==> idx.Valid() && Refines(idx.nodes, bh.hdrs, bh.owner)
  {
    hide idx.Valid, Refines, Coalesced, UsedOf, bh.Valid;
    HeapIsTiled(bh);
    var hdrs := bh.hdrs;
    ghost var owner := bh.owner;
    var prev := bh.FreeBlockEndingAt(hbp);
    aborted := bh.FreeBlk(hbp);
    if !aborted {
      RemoveBlockCounts(idx, hdrs, owner, hbp);
      var freed := hdrs[hbp := Free(BlkSize(hdrs[hbp]), 0, 0, true)];
      HeapIsTiled(bh);
      EndsStay(hdrs, owner, hbp, prev);
      RemoveNeighbours(idx, freed, owner, hbp, prev, bh.hdrs, bh.owner);
    }
  }

  lemma HeapIsTiled(bh: BlockHeap)
    requires bh.Valid()
    ensures Tiled(bh.hdrs, bh.owner)
  {
  }

  lemma EndsStay(hdrs: Headers, owner: map<nat, nat>, h: nat, prev: nat)
    requires Tiled(hdrs, owner) && h in hdrs
    requires forall b :: b in hdrs && hdrs[b].Free? && b + hdrs[b].nblks == h ==> b == prev
    ensures OnlyPrev(hdrs[h := Free(BlkSize(hdrs[h]), 0, 0, true)], h, prev)
  {
    StillBefore(hdrs[h := Free(BlkSize(hdrs[h]), 0, 0, true)], h, prev);
  }

  // -----------------------------------------------------------------------------------
  // Growing the heap
  // -----------------------------------------------------------------------------------

  /** `GC_add_to_heap`, with what it does to the index. */
  method AddIndexed(bh: BlockHeap, idx: Index, start: nat, bytes: nat) returns (aborted: bool)
    requires bh.Valid() && bytes > 0 && start < ADDR_END && bytes <= ADDR_END && Vacant(bh.owner, start, bytes)
    requires idx.Valid() && Refines(idx.nodes, bh.hdrs, bh.owner)
    modifies bh`hdrs, bh`heads, bh`freeBlks, bh`lists, bh`home, bh`owner, bh`largeFree, bh`heapSize, idx
    ensures !aborted ==> bh.Valid() && UsedOf(bh.hdrs) == old(UsedOf(bh.hdrs))
    // What is usable of the memory becomes a free block, merged with its neighbours where sizes allow.
    ensures var q := Max(start, 2); var n := Diff(Min(start + bytes, ADDR_END - 1), q);
      && (aborted <==> n >= HALF)
      && (!aborted ==> bh.owner.Keys == old(bh.owner.Keys) + Cells(q, n))
      && (!aborted ==> if n == 0 then bh.hdrs == old(bh.hdrs) else Coalesced(old(bh.hdrs)[q := Free(n, 0, 0, true)], q, bh.hdrs))
    ensures !aborted ==> idx.Valid() && Refines(idx.nodes, bh.hdrs, bh.owner)
  {
    hide idx.Valid, Refines, Coalesced, UsedOf, Vacant, bh.Valid;
    HeapIsTiled(bh);
    var hdrs := bh.hdrs;
    ghost var owner := bh.owner;
    var prev := bh.FreeBlockEndingAt(Max(start, 2));
    var p, n;
    aborted, p, n := bh.AddToHeap(start, bytes);
    if !aborted && n > 0 {
      VacantPart(owner, start, bytes, p, n);
      ghost var nodes, m := idx.nodes, Free(n, 0, 0, true);
      idx.InstallHeader(p);
      NewRefines(nodes, idx.nodes, hdrs, owner, p, m);
      HeapIsTiled(bh);
      NothingEndsNew(hdrs, owner, p, n, prev);
      RemoveNeighbours(idx, hdrs[p := Free(n, 0, 0, true)], Owned(owner, p, n), p, prev, bh.hdrs, bh.owner);
    } else if !aborted {
      HeapIsTiled(bh);
      LinksDoNotMatter(idx.nodes, hdrs, owner, bh.hdrs, bh.owner);
    }
  }

  lemma VacantPart(owner: map<nat, nat>, start: nat, bytes: nat, p: nat, n: nat)
    requires Vacant(owner, start, bytes) && start <= p && p + n <= start + bytes
    ensures Vacant(owner, p, n)
  {
    assert forall x :: InRange(x, p, n) ==> InRange(x, start, bytes);
  }

  lemma NothingEndsNew(hdrs: Headers, owner: map<nat, nat>, p: nat, n: nat, prev: nat)
    requires n >= 1
    requires forall b :: b in hdrs && hdrs[b].Free? && b + hdrs[b].nblks == p ==> b == prev
    ensures OnlyPrev(hdrs[p := Free(n, 0, 0, true)], p, prev)
  {
    StillBefore(hdrs[p := Free(n, 0, 0, true)], p, prev);
  }

  // -----------------------------------------------------------------------------------
  // Allocating a block
  // -----------------------------------------------------------------------------------

  /** The blocks after an allocation: those before it, the pieces given up, the new one, and what is left behind it. */
  lemma BlocksAfter(before: Headers, z: Headers, drops: set<nat>, h: nat, r: nat, sz: nat, kind: M.Kind)
    requires TakenOut(before + GivenUp(drops), z, h, r, sz, kind)
    ensures var n := ObjSzToBlocks(sz);
      forall x :: x in z <==> x in before || x in drops || x == r || (x == r + n && LeftOver(before + GivenUp(drops), h, r, n))
  {
  }

  /** Free block `h` reaches beyond the `n` heap blocks at `r`. */
  predicate LeftOver(hdrs: Headers, h: nat, r: nat, n: nat) {
    h + NBlks(hdrs, h) > r + n
  }

  /** An address inside a block in use is inside one afterwards, and the other way round unless the block is new. */
  lemma InsideStays(before: Headers, owner: map<nat, nat>, z: Headers, owner': map<nat, nat>, drops: set<nat>, r: nat,
                    sz: nat, kind: M.Kind, x: nat)
    requires Tiled(before, owner) && Tiled(z, owner') && UsedOutcome(UsedOf(before), UsedOf(z), drops, r, sz, kind) && r != 0
    requires x !in z && x !in before
    ensures Expected(z, owner', x) ==
            if r < x < r + ObjSzToBlocks(sz) then Forward(Smaller(x - r, MAX_JUMP)) else Expected(before, owner, x)
  {
    assert r in UsedOf(z) && z[r] == Used(sz, kind);
    if r < x < r + ObjSzToBlocks(sz) {
      assert InBlock(z, r, x);
    } else {
      if Expected(z, owner', x).Forward? {
        var b := owner'[x];
        assert InBlock(z, b, x) && b in UsedOf(z) && b != r;
        assert b in UsedOf(before) && InBlock(before, b, x);
      }
      if Expected(before, owner, x).Forward? {
        var b := owner[x];
        assert InBlock(before, b, x) && b in UsedOf(before);
        assert b in UsedOf(z) && InBlock(z, b, x);
      }
    }
  }

  /** What the index says after block `r` of `n` heap blocks has been taken out of `h`, and `drops` have been given up. */
  function AfterAlloc(nodes: Nodes, hdrs: Headers, drops: set<nat>, h: nat, r: nat, n: nat, x: nat): Cell {
    if x in drops || x == r || (x == r + n && LeftOver(hdrs, h, r, n)) then Head
    else if r < x < r + n then Forward(Smaller(x - r, MAX_JUMP))
    else CellAt(nodes, x)
  }

  /**
   `GC_allochblk` and the index: headers for the pieces of blocks given up, for the new block and
   for what is left behind it, and forwarding counts inside the new block, are all that is needed.
   */
  lemma AllocRefines(nodes: Nodes, y: Nodes, before: Headers, owner: map<nat, nat>, z: Headers, owner': map<nat, nat>,
                     drops: set<nat>, h: nat, r: nat, sz: nat, kind: M.Kind)
    requires Refines(nodes, before, owner) && Tiled(z, owner') && r != 0
    requires UsedOutcome(UsedOf(before), UsedOf(z), drops, r, sz, kind) && TakenOut(before + GivenUp(drops), z, h, r, sz, kind)
    requires forall x: nat :: CellAt(y, x) == AfterAlloc(nodes, before + GivenUp(drops), drops, h, r, ObjSzToBlocks(sz), x)
    ensures Refines(y, z, owner')
  {
    hide TakenOut, UsedOutcome, GivenUp, LeftOver, Tiled;
    BlocksAfter(before, z, drops, h, r, sz, kind);
    forall x: nat ensures CellAt(y, x) == Expected(z, owner', x) {
      if x in z {
        NothingInside(z, owner', r, x);
        InUseNow(before, z, drops, r, sz, kind);
      } else {
        InsideStays(before, owner, z, owner', drops, r, sz, kind, x);
      }
    }
  }

  lemma InUseNow(before: Headers, z: Headers, drops: set<nat>, r: nat, sz: nat, kind: M.Kind)
    requires UsedOutcome(UsedOf(before), UsedOf(z), drops, r, sz, kind) && r != 0
    ensures r in z && z[r] == Used(sz, kind)
  {
    assert r in UsedOf(z);
  }

  lemma NothingInside(z: Headers, owner: map<nat, nat>, r: nat, x: nat)
    requires Tiled(z, owner) && x in z
    ensures r in z ==> !(r < x < r + BlkSize(z[r]))
  {
    if r in z {
      OwnersOf(z, owner, r, x);
    }
  }

  lemma InsideStaysAfterDrops(before: Headers, owner: map<nat, nat>, z: Headers, owner': map<nat, nat>, drops: set<nat>,
                              sz: nat, kind: M.Kind, x: nat)
    requires Tiled(before, owner) && Tiled(z, owner') && UsedOutcome(UsedOf(before), UsedOf(z), drops, 0, sz, kind)
    requires x !in z && x !in before
    ensures Expected(z, owner', x) == Expected(before, owner, x)
  {
    if Expected(z, owner', x).Forward? {
      var b := owner'[x];
      assert InBlock(z, b, x) && b in UsedOf(z);
      assert b in UsedOf(before) && InBlock(before, b, x);
    }
    if Expected(before, owner, x).Forward? {
      var b := owner[x];
      assert InBlock(before, b, x) && b in UsedOf(before);
      assert b in UsedOf(z) && InBlock(z, b, x);
    }
  }

  /** The same when no block has been found: only headers for what has been given up. */
  lemma GiveUpRefines(nodes: Nodes, y: Nodes, before: Headers, owner: map<nat, nat>, z: Headers, owner': map<nat, nat>,
                      drops: set<nat>, sz: nat, kind: M.Kind)
    requires Refines(nodes, before, owner) && Tiled(z, owner') && Outcome(before, z, drops, 0, sz, kind)
    requires forall x: nat :: CellAt(y, x) == if x in drops then Head else CellAt(nodes, x)
    ensures Refines(y, z, owner')
  {
    hide UsedOutcome, UsedOf, Tiled;
    forall x: nat ensures CellAt(y, x) == Expected(z, owner', x) {
      if x !in z {
        InsideStaysAfterDrops(before, owner, z, owner', drops, sz, kind, x);
      }
    }
  }

  /** Headers for all blocks that were not there before are put into the index. */
  method InstallHeaders(idx: Index, blocks: set<nat>)
    requires idx.Valid()
    modifies idx
    ensures idx.Valid()
    ensures forall x: nat :: CellAt(idx.nodes, x) == if x in blocks then Head else old(CellAt(idx.nodes, x))
  {
    hide idx.Valid, CellAt;
    var rest := blocks;
    while rest != {}
      invariant idx.Valid() && rest <= blocks
      invariant forall x: nat :: CellAt(idx.nodes, x) == if x in blocks - rest then Head else old(CellAt(idx.nodes, x))
      decreases rest
    {
      var b :| b in rest;
      idx.InstallHeader(b);
      rest := rest - {b};
    }
  }

  /** The new entries are just what has changed: pieces, the new block, and what is left behind it. */
  lemma NewHeadersSuffice(nodes: Nodes, y: Nodes, before: Headers, owner: map<nat, nat>, z: Headers, drops: set<nat>,
                          h: nat, r: nat, sz: nat, kind: M.Kind)
    requires Refines(nodes, before, owner) && TakenOut(before + GivenUp(drops), z, h, r, sz, kind)
    requires forall x: nat :: x in z ==> !(r < x < r + ObjSzToBlocks(sz))
    requires forall x: nat :: CellAt(y, x) ==
               if r < x < r + ObjSzToBlocks(sz) then Forward(Smaller(x - r, MAX_JUMP))
               else if x in z.Keys - before.Keys then Head else CellAt(nodes, x)
    ensures forall x: nat :: CellAt(y, x) == AfterAlloc(nodes, before + GivenUp(drops), drops, h, r, ObjSzToBlocks(sz), x)
  {
    hide TakenOut, GivenUp, LeftOver, Tiled;
    BlocksAfter(before, z, drops, h, r, sz, kind);
    forall x: nat ensures CellAt(y, x) == AfterAlloc(nodes, before + GivenUp(drops), drops, h, r, ObjSzToBlocks(sz), x) {
      if x in z && x in before {
        NilMeansNoBlock(nodes, before, owner, x);
      }
    }
  }

  /** The index after an allocation, once its new headers and counts have been put into it. */
  method IndexAllocation(idx: Index, before: Headers, ghost owner: map<nat, nat>, z: Headers, ghost owner': map<nat, nat>,
                         ghost drops: set<nat>, r: nat, sz: nat, ghost kind: M.Kind)
    requires idx.Valid() && Refines(idx.nodes, before, owner) && Tiled(z, owner') && sz > 0
    requires Outcome(before, z, drops, r, sz, kind)
    modifies idx
    ensures idx.Valid() && Refines(idx.nodes, z, owner')
  {
    hide idx.Valid, CellAt, Refines, Tiled, TakenOut, UsedOutcome, GivenUp, UsedOf;
    ghost var nodes := idx.nodes;
    InstallHeaders(idx, z.Keys - before.Keys);
    ghost var mid := idx.nodes;
    if r == 0 {
      OnlyPieces(nodes, mid, before, owner, z, drops);
      GiveUpRefines(nodes, mid, before, owner, z, owner', drops, sz, kind);
    } else {
      BlocksArePositive(sz);
      idx.InstallCounts(r, ObjSzToBlocks(sz));
      ghost var h :| TakenOut(before + GivenUp(drops), z, h, r, sz, kind);
      InUseNow(before, z, drops, r, sz, kind);
      forall x: nat | x in z ensures !(r < x < r + ObjSzToBlocks(sz)) {
        NothingInside(z, owner', r, x);
      }
      NewHeadersSuffice(nodes, idx.nodes, before, owner, z, drops, h, r, sz, kind);
      AllocRefines(nodes, idx.nodes, before, owner, z, owner', drops, h, r, sz, kind);
    }
  }

  lemma BlocksArePositive(sz: nat)
    requires sz > 0
    ensures ObjSzToBlocks(sz) >= 1
  {
  }

  lemma OnlyPieces(nodes: Nodes, y: Nodes, before: Headers, owner: map<nat, nat>, z: Headers, drops: set<nat>)
    requires Refines(nodes, before, owner) && SameBlocks(before + GivenUp(drops), z)
    requires forall x: nat :: CellAt(y, x) == if x in z.Keys - before.Keys then Head else CellAt(nodes, x)
    ensures forall x: nat :: CellAt(y, x) == if x in drops then Head else CellAt(nodes, x)
  {
    hide CellAt, Tiled;
    forall x: nat ensures CellAt(y, x) == if x in drops then Head else CellAt(nodes, x) {
      assert x in z <==> x in before || x in drops;
    }
  }

  /** `GC_allochblk`, with what it does to the index. */
  method AllocIndexed(bh: BlockHeap, idx: Index, sz: nat, kind: M.Kind, ignoreOffPage: bool, advice: SplitAdvice, findLeak: bool)
      returns (r: nat, ghost drops: set<nat>, ghost punted: bool, ghost from: nat, ghost limit: nat)
    requires bh.Valid() && 0 < sz < HeapPlacement.WORD_RANGE && idx.Valid() && Refines(idx.nodes, bh.hdrs, bh.owner)
    modifies bh`hdrs, bh`heads, bh`freeBlks, bh`lists, bh`home, bh`owner, bh`largeFree, bh`dropped, bh`dropCount, idx
    ensures bh.Valid() && bh.owner.Keys == old(bh.owner.Keys)
    ensures Outcome(old(bh.hdrs), bh.hdrs, drops, r, sz, kind) && AllBlack(bh.blackLists, drops)
    ensures Decided(Asked(bh, ObjSzToBlocks(sz), kind, ignoreOffPage), advice, old(bh.hdrs) + GivenUp(drops), bh.hdrs,
                    old(bh.freeBlks), bh.freeBlks, r, punted, from, limit, sz)
    ensures idx.Valid() && Refines(idx.nodes, bh.hdrs, bh.owner)
  {
    hide idx.Valid, Refines, Outcome, bh.Valid, AllBlack, Decided;
    var before := bh.hdrs;
    ghost var owner := bh.owner;
    r, drops, punted, from, limit := AllocBlk(bh, sz, kind, ignoreOffPage, advice, findLeak);
    HeapIsTiled(bh);
    IndexAllocation(idx, before, owner, bh.hdrs, bh.owner, drops, r, sz, kind);
  }
}
