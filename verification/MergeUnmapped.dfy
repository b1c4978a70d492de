/**
 Merging adjacent free blocks when free blocks may have been given back to the operating system.
 A page is one heap block here, so that there are never gaps between unmapped neighbours.
 */
module MergeUnmapped {
  import opened FreeLists
  import opened HeapTiling
  import opened HeapBlocks

  /** Every free block is wholly mapped or wholly unmapped, as its flag says; `resident` is what is mapped. */
  ghost predicate MappedAgrees(hdrs: Headers, resident: set<nat>) {
    forall b, x :: b in hdrs && hdrs[b].Free? && InRange(x, b, hdrs[b].nblks) ==> (x in resident <==> hdrs[b].mapped)
  }

  function Remapped(hdrs: Headers, h: nat, mapped: bool): Headers {
    if h in hdrs && hdrs[h].Free? then hdrs[h := hdrs[h].(mapped := mapped)] else hdrs
  }

  lemma RemappedFits(hdrs: Headers, heads: seq<nat>, freeBlks: seq<nat>, lists: seq<seq<nat>>, home: map<nat, nat>, h: nat, mapped: bool)
    requires ListsFit(hdrs, heads, freeBlks, lists, home)
    ensures ListsFit(Remapped(hdrs, h, mapped), heads, freeBlks, lists, home)
  {
    var z := Remapped(hdrs, h, mapped);
    forall i | 0 <= i < |lists| ensures ListOk(z, heads[i], lists[i]) && Sum(z, lists[i]) == Sum(hdrs, lists[i]) {
      forall k | 0 <= k < |lists[i]| ensures NodeOk(z, lists[i], k) {
        assert NodeOk(hdrs, lists[i], k);
      }
      SumSame(hdrs, z, lists[i]);
    }
  }

  lemma RemappedTiled(hdrs: Headers, owner: map<nat, nat>, home: map<nat, nat>, h: nat, mapped: bool)
    requires Tiled(hdrs, owner) && Homed(hdrs, home, {}, {})
    ensures var z := Remapped(hdrs, h, mapped);
      && Tiled(z, owner) && Homed(z, home, {}, {}) && UsedOf(z) == UsedOf(hdrs) && FreeCells(z, owner) == FreeCells(hdrs, owner)
  {
    var z := Remapped(hdrs, h, mapped);
    forall b, x | InBlock(z, b, x) ensures x in owner && owner[x] == b {
      assert InBlock(hdrs, b, x);
    }
    forall x | x in owner ensures InBlock(z, owner[x], x) {
      assert InBlock(hdrs, owner[x], x);
    }
  }

  /** The flag of a free block changes. */
  method SetMapped(bh: BlockHeap, h: nat, mapped: bool)
    requires bh.Sound() && h in bh.hdrs && bh.hdrs[h].Free?
    modifies bh`hdrs
    ensures bh.Sound() && bh.SameHeap() && bh.hdrs == old(bh.hdrs[h := bh.hdrs[h].(mapped := mapped)])
  {
    hide ListsFit, Tiled, Homed, FreeCells, UsedOf;
    RemappedFits(bh.hdrs, bh.heads, bh.freeBlks, bh.lists, bh.home, h, mapped);
    RemappedTiled(bh.hdrs, bh.owner, bh.home, h, mapped);
    bh.hdrs := bh.hdrs[h := bh.hdrs[h].(mapped := mapped)];
  }

  /** `GC_remap` and `GC_unmap`. */
  function Map(resident: set<nat>, b: nat, n: nat): set<nat> {
    resident + set x: nat | x < b + n && InRange(x, b, n)
  }

  function Unmap(resident: set<nat>, b: nat, n: nat): set<nat> {
    resident - set x: nat | x < b + n && InRange(x, b, n)
  }

  lemma BlocksApart(hdrs: Headers, owner: map<nat, nat>, b: nat, c: nat)
    requires Tiled(hdrs, owner) && b in hdrs && c in hdrs && b != c
    ensures forall x :: InRange(x, b, BlkSize(hdrs[b])) ==> !InRange(x, c, BlkSize(hdrs[c]))
  {
    forall x | InRange(x, b, BlkSize(hdrs[b])) ensures !InRange(x, c, BlkSize(hdrs[c])) {
      assert InBlock(hdrs, b, x) && (InRange(x, c, BlkSize(hdrs[c])) ==> InBlock(hdrs, c, x));
    }
  }

  /** Mapping or unmapping one free block, and setting its flag, leaves all flags right. */
  lemma ChangeOne(hdrs: Headers, owner: map<nat, nat>, resident: set<nat>, h: nat, mapped: bool)
    requires Tiled(hdrs, owner) && MappedAgrees(hdrs, resident) && h in hdrs && hdrs[h].Free?
    ensures MappedAgrees(hdrs[h := hdrs[h].(mapped := mapped)],
                         if mapped then Map(resident, h, hdrs[h].nblks) else Unmap(resident, h, hdrs[h].nblks))
  {
    forall b | b in hdrs && b != h ensures forall x :: InRange(x, b, BlkSize(hdrs[b])) ==> !InRange(x, h, hdrs[h].nblks) {
      BlocksApart(hdrs, owner, b, h);
    }
  }

  /** The flag of block `next` put aside, all flags are right, and `next` is mapped as block `h` is. */
  ghost predicate Consistent(hdrs: Headers, h: nat, next: nat, resident: set<nat>) {
    && h in hdrs && hdrs[h].Free? && next in hdrs && hdrs[next].Free?
    && MappedAgrees(hdrs[next := hdrs[next].(mapped := hdrs[h].mapped)], resident)
  }

  /** Memory outside free blocks is neither mapped nor unmapped. */
  ghost predicate SameElsewhere(hdrs: Headers, owner: map<nat, nat>, resident: set<nat>, res: set<nat>) {
    forall x :: x !in FreeCells(hdrs, owner) ==> (x in res <==> x in resident)
  }

  lemma ChangeStaysFree(hdrs: Headers, owner: map<nat, nat>, resident: set<nat>, h: nat)
    requires Tiled(hdrs, owner) && h in hdrs && hdrs[h].Free?
    ensures SameElsewhere(hdrs, owner, resident, resident)
    ensures SameElsewhere(hdrs, owner, resident, Map(resident, h, hdrs[h].nblks))
    ensures SameElsewhere(hdrs, owner, resident, Unmap(resident, h, hdrs[h].nblks))
  {
    forall x | InRange(x, h, hdrs[h].nblks) ensures x in FreeCells(hdrs, owner) {
      assert InBlock(hdrs, h, x);
    }
  }

  /** The larger of two blocks, which decides whether the merged block is mapped; the second if they are of one size. */
  function Larger(hdrs: Headers, h: nat, next: nat): nat {
    if NBlks(hdrs, h) > NBlks(hdrs, next) then h else next
  }

  /** Memory of the smaller block is treated like that of the larger one, and all other memory stays as it is. */
  ghost predicate LikeTheLarger(hdrs: Headers, h: nat, next: nat, resident: set<nat>, res: set<nat>) {
    var keep := Larger(hdrs, h, next);
    var small := if keep == h then next else h;
    && h in hdrs && hdrs[h].Free? && next in hdrs && hdrs[next].Free?
    && forall x :: x in res <==> if InRange(x, small, NBlks(hdrs, small)) then hdrs[keep].mapped else x in resident
  }

  lemma AlreadyAlike(hdrs: Headers, h: nat, next: nat, resident: set<nat>)
    requires h in hdrs && hdrs[h].Free? && next in hdrs && hdrs[next].Free? && hdrs[h].mapped == hdrs[next].mapped
    requires MappedAgrees(hdrs, resident)
    ensures LikeTheLarger(hdrs, h, next, resident, resident)
  {
  }

  lemma MadeAlike(hdrs: Headers, h: nat, next: nat, resident: set<nat>)
    requires h in hdrs && hdrs[h].Free? && next in hdrs && hdrs[next].Free?
    ensures var keep := Larger(hdrs, h, next); var small := if keep == h then next else h;
      LikeTheLarger(hdrs, h, next, resident,
                    if hdrs[keep].mapped then Map(resident, small, NBlks(hdrs, small)) else Unmap(resident, small, NBlks(hdrs, small)))
  {
  }

  /** The smaller one of two blocks, one mapped and one not, is remapped or unmapped. */
  method MakeConsistent(bh: BlockHeap, h: nat, next: nat, resident: set<nat>) returns (res: set<nat>)
    requires bh.Sound() && Mergeable(bh.hdrs, h) && next == h + NBlks(bh.hdrs, h) && h != next && MappedAgrees(bh.hdrs, resident)
    modifies bh`hdrs
    ensures bh.Sound() && bh.SameHeap() && Consistent(bh.hdrs, h, next, res)
    ensures LikeTheLarger(old(bh.hdrs), h, next, resident, res)
    ensures bh.hdrs == old(Remapped(bh.hdrs, h, bh.hdrs[Larger(bh.hdrs, h, next)].mapped))
    ensures SameElsewhere(old(bh.hdrs), old(bh.owner), resident, res)
  {
    hide bh.Sound, UsedOf, FreeCells, MappedAgrees, Map, Unmap, SameElsewhere, LikeTheLarger;
    res := resident;
    SoundTiled(bh);
    MadeAlike(bh.hdrs, h, next, resident);
    if bh.hdrs[h].mapped == bh.hdrs[next].mapped {
      AlreadyAlike(bh.hdrs, h, next, resident);
    }
    ChangeStaysFree(bh.hdrs, bh.owner, resident, h);
    ChangeStaysFree(bh.hdrs, bh.owner, resident, next);
    ghost var hdrs0 := bh.hdrs;
    var hhdr, nexthdr := bh.hdrs[h], bh.hdrs[next];
    assert hdrs0 == Remapped(hdrs0, h, hhdr.mapped);
    if hhdr.mapped && !nexthdr.mapped {
      if hhdr.nblks > nexthdr.nblks {
        ChangeOne(bh.hdrs, bh.owner, resident, next, true);
        res := Map(res, next, nexthdr.nblks);
      } else {
        ChangeOne(bh.hdrs, bh.owner, resident, h, false);
        res := Unmap(res, h, hhdr.nblks);
        SetMapped(bh, h, false);
        assert bh.hdrs == Remapped(hdrs0, h, false);
      }
    } else if nexthdr.mapped && !hhdr.mapped {
      if hhdr.nblks > nexthdr.nblks {
        ChangeOne(bh.hdrs, bh.owner, resident, next, false);
        res := Unmap(res, next, nexthdr.nblks);
      } else {
        ChangeOne(bh.hdrs, bh.owner, resident, h, true);
        res := Map(res, h, hhdr.nblks);
        SetMapped(bh, h, true);
        assert bh.hdrs == Remapped(hdrs0, h, true);
      }
    }
    assert bh.hdrs[next := bh.hdrs[next]] == bh.hdrs;
  }

  lemma SoundTiled(bh: BlockHeap)
    requires bh.Sound()
    ensures Tiled(bh.hdrs, bh.owner) && 0 !in bh.hdrs
  {
  }

  lemma RemappedMergeable(hdrs: Headers, h: nat, mapped: bool)
    ensures var z := Remapped(hdrs, h, mapped);
      && (forall d :: Mergeable(z, d) <==> Mergeable(hdrs, d)) && (forall d :: NBlks(z, d) == NBlks(hdrs, d))
      && z.Keys == hdrs.Keys && (forall d :: d in z ==> z[d].Free? == hdrs[d].Free?)
  {
  }

  lemma SoundMerge(hdrs: Headers, z: Headers, home: map<nat, nat>, h: nat)
    requires Homed(hdrs, home, {}, {}) && SameBlocks(hdrs, z) && h in home
    ensures Homed(z, home - {h}, {h}, {})
  {
    HomedLess(hdrs, z, home, {}, {}, h);
    assert {} + {h} == {h};
  }

  lemma MergedAgrees(hdrs: Headers, z: Headers, h: nat, next: nat, resident: set<nat>)
    requires Consistent(hdrs, h, next, resident) && h in z && z[h].Free? && z[h].mapped == hdrs[h].mapped
    requires z[h].nblks == hdrs[h].nblks + hdrs[next].nblks && next == h + hdrs[h].nblks && h != next
    requires forall d :: d in z && d != h ==> d != next && d in hdrs && SameButLinks(hdrs[d], z[d])
    ensures MappedAgrees(z, resident)
  {
    var y := hdrs[next := hdrs[next].(mapped := hdrs[h].mapped)];
    forall x | InRange(x, h, z[h].nblks) ensures x in resident <==> z[h].mapped {
      assert InRange(x, h, y[h].nblks) || InRange(x, next, y[next].nblks);
    }
    forall d, x | d in z && z[d].Free? && d != h && InRange(x, d, z[d].nblks) ensures x in resident <==> z[d].mapped {
      assert InRange(x, d, y[d].nblks);
    }
  }

  predicate SameButLinks(a: Hdr, b: Hdr) {
    if a.Used? then b == a else b.Free? && b.nblks == a.nblks && b.mapped == a.mapped
  }

  lemma NextIsFree(hdrs: Headers, owner: map<nat, nat>, h: nat)
    requires Tiled(hdrs, owner) && Mergeable(hdrs, h)
    ensures var next := h + NBlks(hdrs, h);
      && Follows(hdrs, h, next) && h != next && hdrs[h].Free? && hdrs[next].Free? && h != 0 && next != 0
  {
  }

  lemma SameBlocksButLinks(a: Headers, b: Headers)
    requires SameBlocks(a, b)
    ensures forall d :: d in b ==> d in a && SameButLinks(a[d], b[d])
    ensures forall d :: d in a ==> d in b
  {
  }

  /** Two free blocks are taken off their lists, block `h` off list `i`. */
  method TakeBoth(bh: BlockHeap, h: nat, next: nat, i: nat, ghost k: nat)
    requires bh.Sound() && bh.OnList(h, i, k) && next in bh.hdrs && bh.hdrs[next].Free? && next != h
    modifies bh`hdrs, bh`heads, bh`freeBlks, bh`lists, bh`home
    ensures bh.Fit() && bh.Lying() && Homed(bh.hdrs, bh.home, {h, next}, {}) && bh.SameHeap()
    ensures SameBlocks(old(bh.hdrs), bh.hdrs) && h !in bh.home && next !in bh.home
  {
    hide ListsFit, Tiled, Homed, FreeCells, UsedOf, SameBlocks;
    bh.OnListFacts(h, i, k);
    ghost var hdrs0, home0 := bh.hdrs, bh.home;
    bh.RemoveFromFlAt(h, i, k);
    ghost var hdrs1 := bh.hdrs;
    SameBlocksTiled(hdrs0, hdrs1, bh.owner);
    SameBlocksButLinks(hdrs0, hdrs1);
    SoundMerge(hdrs0, hdrs1, home0, h);
    bh.TakeFree(next, h);
    SameBlocksTrans(hdrs0, hdrs1, bh.hdrs);
  }

  /** A free block in limbo goes to the list for its size. */
  method ListAgain(bh: BlockHeap, h: nat)
    requires bh.Fit() && bh.Lying() && Homed(bh.hdrs, bh.home, {h}, {})
    requires bh.largeFree == |FreeCells(bh.hdrs, bh.owner)|
    modifies bh`hdrs, bh`heads, bh`freeBlks, bh`lists, bh`home
    ensures bh.Sound() && bh.SameHeap() && SameBlocks(old(bh.hdrs), bh.hdrs)
  {
    hide ListsFit, Tiled, Homed, FreeCells, UsedOf, SameBlocks;
    ghost var hdrs0, home0 := bh.hdrs, bh.home;
    LimboFacts(hdrs0, home0, h, bh.owner);
    bh.AddToFl(h);
    SameBlocksTiled(hdrs0, bh.hdrs, bh.owner);
    HomedMore(hdrs0, bh.hdrs, home0, {h}, {}, h);
    assert {h} - {h} == {};
  }

  /** Free block `h`, at place `k` of list `i`, is merged with its successor. */
  method MergePair(bh: BlockHeap, h: nat, next: nat, i: nat, ghost k: nat)
    requires bh.Sound() && bh.OnList(h, i, k) && Mergeable(bh.hdrs, h) && next == h + NBlks(bh.hdrs, h)
    modifies bh`hdrs, bh`heads, bh`freeBlks, bh`lists, bh`home, bh`owner
    ensures bh.Sound() && bh.SameHeap() && Pair(old(bh.hdrs), bh.hdrs, h, next)
  {
    hide ListsFit, Tiled, Homed, FreeCells, UsedOf, Mergeable, SameBlocks, MergedInto;
    ghost var hdrs0 := bh.hdrs;
    NextIsFree(hdrs0, bh.owner, h);
    TakeBoth(bh, h, next, i, k);
    ghost var hdrs1 := bh.hdrs;
    SameBlocksButLinks(hdrs0, hdrs1);
    ghost var m := hdrs1[h].(nblks := hdrs1[h].nblks + hdrs1[next].nblks);
    HomedAbsorb(hdrs1, bh.home, {h, next}, {}, h, next, m);
    assert {h, next} - {next} == {h};
    bh.Absorb(h, next);
    ListAgain(bh, h);
    PairIsMerged(hdrs0, hdrs1, bh.hdrs, h, next, m);
  }

  /** Blocks `h` and `next` have been merged, and the other blocks are as they were. */
  ghost predicate Pair(hdrs: Headers, z: Headers, h: nat, next: nat) {
    && MergedInto(hdrs, z, h, next) && hdrs[h].Free? && hdrs[next].Free? && z[h].mapped == hdrs[h].mapped && next !in z
    && forall d :: d in z && d != h ==> d in hdrs && SameButLinks(hdrs[d], z[d])
  }

  lemma PairIsMerged(hdrs0: Headers, hdrs1: Headers, z: Headers, h: nat, next: nat, m: Hdr)
    requires SameBlocks(hdrs0, hdrs1) && Follows(hdrs1, h, next) && hdrs1[h].Free? && hdrs1[next].Free? && h != next
    requires m == hdrs1[h].(nblks := hdrs1[h].nblks + hdrs1[next].nblks) && SameBlocks((hdrs1 - {next})[h := m], z)
    ensures Pair(hdrs0, z, h, next)
  {
    var y := (hdrs1 - {next})[h := m];
    SameBlocksMergeable(hdrs0, hdrs1);
    MergeMergeable(hdrs1, y, h, next, m);
    SameBlocksMergeable(y, z);
  }

  // -----------------------------------------------------------------------------------
  // The loops
  // -----------------------------------------------------------------------------------

  /** No block on the lists before list `i` is mergeable with its successor. */
  ghost predicate SettledBelow(hdrs: Headers, i: nat) {
    forall b :: Mergeable(hdrs, b) ==> FlIndex(NBlks(hdrs, b)) >= i
  }

  lemma PairStaysSettled(hdrs: Headers, z: Headers, h: nat, next: nat, i: nat)
    requires Pair(hdrs, z, h, next) && SettledBelow(hdrs, i) && FlIndex(NBlks(hdrs, h)) == i
    ensures SettledBelow(z, i)
  {
    FlIndexMonotone(NBlks(hdrs, h), NBlks(z, h));
    forall b | Mergeable(z, b) ensures FlIndex(NBlks(z, b)) >= i {
      assert b != h ==> Mergeable(hdrs, b);
    }
  }

  /** The first `k` blocks of list `l` are not mergeable. */
  ghost predicate PassedBy(hdrs: Headers, l: seq<nat>, k: nat) {
    forall j :: 0 <= j < k && j < |l| ==> !Mergeable(hdrs, l[j])
  }

  lemma IsListed(bh: BlockHeap, b: nat) returns (i: nat, k: nat)
    requires bh.Sound() && b in bh.hdrs && bh.hdrs[b].Free?
    ensures i == FlIndex(NBlks(bh.hdrs, b)) && i < |bh.lists| && k < |bh.lists[i]| && bh.lists[i][k] == b
  {
    i := bh.home[b];
    k := bh.SomewhereOnList(b);
  }

  lemma ListIsSettled(bh: BlockHeap, i: nat)
    requires bh.Sound() && i < |bh.lists| && SettledBelow(bh.hdrs, i) && PassedBy(bh.hdrs, bh.lists[i], |bh.lists[i]|)
    ensures SettledBelow(bh.hdrs, i + 1)
  {
    hide bh.Sound, FlIndex;
    forall b | Mergeable(bh.hdrs, b) ensures FlIndex(NBlks(bh.hdrs, b)) >= i + 1 {
      var j, k := IsListed(bh, b);
    }
  }

  /** Where the walk over list `i` is. */
  ghost predicate Walking(bh: BlockHeap, h: nat, i: nat, k: nat)
    reads bh`hdrs, bh`heads, bh`freeBlks, bh`lists, bh`home, bh`owner, bh`heapSize, bh`largeFree
  {
    && bh.Sound() && i < |bh.lists| == N_HBLK_FLS + 1 && k <= |bh.lists[i]| && h == At(bh.lists[i], k)
    && (h == 0 <==> k == |bh.lists[i]|)
  }

  lemma WalkStarts(bh: BlockHeap, i: nat)
    requires bh.Sound() && i <= N_HBLK_FLS
    ensures i < |bh.heads| && Walking(bh, bh.heads[i], i, 0) && PassedBy(bh.hdrs, bh.lists[i], 0)
  {
    bh.HeadFacts(i);
  }

  lemma WalkGoesOn(bh: BlockHeap, h: nat, i: nat, k: nat)
    requires Walking(bh, h, i, k) && h != 0
    ensures bh.OnList(h, i, k) && h in bh.hdrs && bh.hdrs[h].Free? && Walking(bh, bh.hdrs[h].next, i, k + 1)
    ensures FlIndex(NBlks(bh.hdrs, h)) == i
    ensures Mergeable(bh.hdrs, h) || (PassedBy(bh.hdrs, bh.lists[i], k) ==> PassedBy(bh.hdrs, bh.lists[i], k + 1))
  {
    bh.OnListFacts(h, i, k);
  }

  /** `GC_merge_unmapped`: every merge starts the walk over the list again. */
  method MergeAll(bh: BlockHeap, resident: set<nat>) returns (res: set<nat>)
    requires bh.Sound() && MappedAgrees(bh.hdrs, resident)
    modifies bh`hdrs, bh`heads, bh`freeBlks, bh`lists, bh`home, bh`owner
    ensures bh.Sound() && bh.SameHeap() && MappedAgrees(bh.hdrs, res)
    ensures forall b :: !Mergeable(bh.hdrs, b)
    ensures forall x :: x !in old(FreeCells(bh.hdrs, bh.owner)) ==> (x in res <==> x in resident)
  {
    hide bh.Sound, UsedOf, FreeCells, MappedAgrees, Mergeable, SettledBelow, PassedBy;
    res := resident;
    NothingBelow(bh.hdrs);
    for i := 0 to N_HBLK_FLS + 1
      invariant bh.Sound() && bh.SameHeap() && MappedAgrees(bh.hdrs, res) && SettledBelow(bh.hdrs, i)
      invariant forall x :: x !in old(FreeCells(bh.hdrs, bh.owner)) ==> (x in res <==> x in resident)
    {
      res := MergeList(bh, i, res);
    }
    AllSettled(bh.hdrs);
  }

  lemma NothingBelow(hdrs: Headers)
    ensures SettledBelow(hdrs, 0)
  {
  }

  lemma AllSettled(hdrs: Headers)
    requires SettledBelow(hdrs, N_HBLK_FLS + 1)
    ensures forall b :: !Mergeable(hdrs, b)
  {
    forall b ensures !Mergeable(hdrs, b) {
      var i := FlIndex(NBlks(hdrs, b));
    }
  }

  /** The inner loop: list `i`, until no block on it can be merged. */
  method MergeList(bh: BlockHeap, i: nat, resident: set<nat>) returns (res: set<nat>)
    requires bh.Sound() && MappedAgrees(bh.hdrs, resident) && i <= N_HBLK_FLS && SettledBelow(bh.hdrs, i)
    modifies bh`hdrs, bh`heads, bh`freeBlks, bh`lists, bh`home, bh`owner
    ensures bh.Sound() && bh.SameHeap() && MappedAgrees(bh.hdrs, res) && SettledBelow(bh.hdrs, i + 1)
    ensures forall x :: x !in old(FreeCells(bh.hdrs, bh.owner)) ==> (x in res <==> x in resident)
  {
    hide bh.Sound, UsedOf, FreeCells, MappedAgrees, Mergeable, SettledBelow, PassedBy;
    res := resident;
    WalkStarts(bh, i);
    var h := bh.heads[i];
    ghost var k := 0;
    while h != 0
      invariant Walking(bh, h, i, k) && bh.SameHeap() && MappedAgrees(bh.hdrs, res)
      invariant SettledBelow(bh.hdrs, i) && PassedBy(bh.hdrs, bh.lists[i], k)
      invariant forall x :: x !in old(FreeCells(bh.hdrs, bh.owner)) ==> (x in res <==> x in resident)
      decreases |bh.hdrs.Keys|, |bh.lists[i]| - k
    {
      WalkGoesOn(bh, h, i, k);
      if Mergeable(bh.hdrs, h) {
        res := MergeHere(bh, h, i, k, res);
        WalkStarts(bh, i);
        h, k := bh.heads[i], 0;
      } else {
        h, k := bh.hdrs[h].next, k + 1;
      }
    }
    ListIsSettled(bh, i);
  }

  /** One merge, after the two blocks have been made consistent. */
  method MergeHere(bh: BlockHeap, h: nat, i: nat, ghost k: nat, resident: set<nat>) returns (res: set<nat>)
    requires bh.Sound() && MappedAgrees(bh.hdrs, resident) && bh.OnList(h, i, k) && Mergeable(bh.hdrs, h)
    requires FlIndex(NBlks(bh.hdrs, h)) == i && SettledBelow(bh.hdrs, i)
    modifies bh`hdrs, bh`heads, bh`freeBlks, bh`lists, bh`home, bh`owner
    ensures bh.Sound() && bh.SameHeap() && MappedAgrees(bh.hdrs, res) && SettledBelow(bh.hdrs, i)
    ensures |bh.hdrs.Keys| < old(|bh.hdrs.Keys|)
    // The two are one block now, mapped or not as the larger of them was.
    ensures var next := h + old(NBlks(bh.hdrs, h));
      && LikeTheLarger(old(bh.hdrs), h, next, resident, res)
      && Pair(old(Remapped(bh.hdrs, h, bh.hdrs[Larger(bh.hdrs, h, next)].mapped)), bh.hdrs, h, next)
    ensures SameElsewhere(old(bh.hdrs), old(bh.owner), resident, res)
  {
    hide bh.Sound, UsedOf, FreeCells, SameElsewhere, MappedAgrees, Mergeable, SettledBelow, FlIndex, LikeTheLarger, Pair;
    SoundTiled(bh);
    ghost var hdrs0 := bh.hdrs;
    NextIsFree(hdrs0, bh.owner, h);
    var next := h + bh.hdrs[h].nblks;
    res := MakeConsistent(bh, h, next, resident);
    ghost var hdrs1 := bh.hdrs;
    RemappedSettled(hdrs0, hdrs1, h, i);
    MergePair(bh, h, next, i, k);
    PairStaysSettled(hdrs1, bh.hdrs, h, next, i);
    PairAgrees(hdrs1, bh.hdrs, h, next, res);
  }

  lemma RemappedSettled(hdrs: Headers, z: Headers, h: nat, i: nat)
    requires exists m :: z == Remapped(hdrs, h, m)
    requires SettledBelow(hdrs, i) && Mergeable(hdrs, h)
    ensures SettledBelow(z, i) && Mergeable(z, h) && NBlks(z, h) == NBlks(hdrs, h) && z.Keys == hdrs.Keys
  {
    var m :| z == Remapped(hdrs, h, m);
    RemappedMergeable(hdrs, h, m);
  }

  lemma PairAgrees(hdrs: Headers, z: Headers, h: nat, next: nat, resident: set<nat>)
    requires Pair(hdrs, z, h, next) && Consistent(hdrs, h, next, resident) && next == h + NBlks(hdrs, h) && h != next
    ensures MappedAgrees(z, resident) && |z.Keys| < |hdrs.Keys|
  {
    MergedAgrees(hdrs, z, h, next, resident);
    assert hdrs.Keys == z.Keys + {next};
  }
}
