/** The counters of the heap-block allocator add up. */
module HeapAccounts {
  import opened Sets
  import opened FreeLists
  import opened HeapTiling
  import opened HeapBlocks
  import opened HeapPlacement

  /** The addresses that belong to the blocks of `l`. */
  ghost function OwnedBy(owner: map<nat, nat>, l: seq<nat>): set<nat> {
    set x | x in owner && owner[x] in l
  }

  /** The sizes of all blocks of `l`, added up. */
  function Total(hdrs: Headers, l: seq<nat>): nat {
    if l == [] then 0 else (if l[0] in hdrs then BlkSize(hdrs[l[0]]) else 0) + Total(hdrs, l[1..])
  }

  /** Blocks do not overlap: the sizes of different blocks add up to the number of their addresses. */
  lemma {:induction false} TotalIsCount(hdrs: Headers, owner: map<nat, nat>, l: seq<nat>)
    requires Tiled(hdrs, owner) && NoRepeats(l) && forall b :: b in l ==> b in hdrs
    ensures |OwnedBy(owner, l)| == Total(hdrs, l)
  {
    if l == [] {
      assert OwnedBy(owner, l) == {};
    } else {
      var b, rest := l[0], l[1..];
      TotalIsCount(hdrs, owner, rest);
      BlockIsCells(hdrs, owner, b);
      CellsCount(b, BlkSize(hdrs[b]));
      assert b !in rest;
      assert forall c :: c in l <==> c == b || c in rest;
      assert OwnedBy(owner, l) == Cells(b, BlkSize(hdrs[b])) + OwnedBy(owner, rest);
      assert Cells(b, BlkSize(hdrs[b])) !! OwnedBy(owner, rest);
    }
  }

  lemma BlockIsCells(hdrs: Headers, owner: map<nat, nat>, b: nat)
    requires Tiled(hdrs, owner) && b in hdrs
    ensures forall x :: x in Cells(b, BlkSize(hdrs[b])) <==> x in owner && owner[x] == b
  {
    forall x ensures x in Cells(b, BlkSize(hdrs[b])) <==> x in owner && owner[x] == b {
      assert x in Cells(b, BlkSize(hdrs[b])) ==> InBlock(hdrs, b, x);
      assert x in owner && owner[x] == b ==> InBlock(hdrs, b, x);
    }
  }

  lemma {:induction false} SumIsTotal(hdrs: Headers, l: seq<nat>)
    requires forall b :: b in l ==> b in hdrs && hdrs[b].Free?
    ensures Sum(hdrs, l) == Total(hdrs, l)
  {
    if l != [] {
      SumIsTotal(hdrs, l[1..]);
    }
  }

  /** The addresses of blocks on the lists from `n` on. */
  ghost function OnListsFrom(owner: map<nat, nat>, home: map<nat, nat>, n: nat): set<nat> {
    set x | x in owner && owner[x] in home && home[owner[x]] >= n
  }

  lemma {:induction false} FreeFromIsCount(bh: BlockHeap, n: nat)
    requires bh.Sound() && n <= N_HBLK_FLS + 1
    ensures |OnListsFrom(bh.owner, bh.home, n)| == FreeFrom(bh.freeBlks, n)
    decreases N_HBLK_FLS + 1 - n
  {
    hide bh.Sound, OnListsFrom, OwnedBy;
    if n == N_HBLK_FLS + 1 {
      NoListsLeft(bh);
    } else {
      FreeFromIsCount(bh, n + 1);
      OneListCounts(bh, n);
      SplitLists(bh.owner, bh.home, n, bh.lists[n]);
    }
  }

  lemma NoListsLeft(bh: BlockHeap)
    requires bh.Sound()
    ensures OnListsFrom(bh.owner, bh.home, N_HBLK_FLS + 1) == {} && |bh.freeBlks| == N_HBLK_FLS + 1
  {
  }

  lemma SplitLists(owner: map<nat, nat>, home: map<nat, nat>, n: nat, l: seq<nat>)
    requires forall b :: b in l <==> b in home && home[b] == n
    ensures OnListsFrom(owner, home, n) == OwnedBy(owner, l) + OnListsFrom(owner, home, n + 1)
    ensures OwnedBy(owner, l) !! OnListsFrom(owner, home, n + 1)
  {
  }

  lemma OneListCounts(bh: BlockHeap, n: nat)
    requires bh.Sound() && n <= N_HBLK_FLS
    ensures n < |bh.lists| == |bh.freeBlks| && |OwnedBy(bh.owner, bh.lists[n])| == bh.freeBlks[n]
    ensures forall b :: b in bh.lists[n] <==> b in bh.home && bh.home[b] == n
  {
    var l := bh.lists[n];
    assert ListOk(bh.hdrs, bh.heads[n], l);
    forall b | b in l ensures b in bh.hdrs && bh.hdrs[b].Free? && b in bh.home && bh.home[b] == n {
      var k :| 0 <= k < |l| && l[k] == b;
      bh.OnListFacts(b, n, k);
    }
    SumIsTotal(bh.hdrs, l);
    TotalIsCount(bh.hdrs, bh.owner, l);
  }

  /** `GC_large_free_bytes` is the sum of the byte counts of all free lists. */
  lemma LargeFreeIsSumOfLists(bh: BlockHeap)
    requires bh.Sound()
    ensures bh.largeFree == FreeFrom(bh.freeBlks, 0)
  {
    FreeFromIsCount(bh, 0);
    assert OnListsFrom(bh.owner, bh.home, 0) == FreeCells(bh.hdrs, bh.owner);
  }

  /** What `GC_check_blocks` checks: the sizes of all blocks in use and the free bytes add up to the heap size. */
  lemma NoLostBlocks(bh: BlockHeap, used: seq<nat>)
    requires bh.Sound() && NoRepeats(used) && forall b :: b in used <==> b in UsedOf(bh.hdrs)
    ensures Total(bh.hdrs, used) + bh.largeFree == bh.heapSize
  {
    var hdrs, owner := bh.hdrs, bh.owner;
    TotalIsCount(hdrs, owner, used);
    forall x | x in owner ensures owner[x] in hdrs {
      assert InBlock(hdrs, owner[x], x);
    }
    CardinalityOfDifference(owner.Keys, FreeCells(hdrs, owner));
    assert OwnedBy(owner, used) == owner.Keys - FreeCells(hdrs, owner);
  }
}
