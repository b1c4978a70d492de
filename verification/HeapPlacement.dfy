/**
 Finding a place for a new block: searching the free lists, avoiding black-listed addresses,
 splitting what is found, and giving up blocks that are black-listed altogether.
 */
module HeapPlacement {
  import opened Sets
  import opened FreeLists
  import opened HeapTiling
  import opened HeapBlocks
  import M = MarkPhase
  import BL = BlackList

  // -----------------------------------------------------------------------------------
  // What splitting does to neighbours
  // -----------------------------------------------------------------------------------

  /** Only the block just before `h` may be mergeable, with `h`. */
  ghost predicate OnlyBefore(hdrs: Headers, h: nat, big: bool) {
    big || forall d: nat :: Mergeable(hdrs, d) ==> d + NBlks(hdrs, d) == h
  }

  lemma SplitMergeable(hdrs: Headers, z: Headers, owner: map<nat, nat>, h: nat, n: nat, first: Hdr, second: Hdr, big: bool)
    requires Tiled(hdrs, owner) && (big || |owner.Keys| < HALF) && NoneMergeable(hdrs, big)
    requires h in hdrs && hdrs[h].Free? && h < n < h + hdrs[h].nblks && n !in hdrs && z == hdrs[h := first][n := second]
    requires first.Free? && second.Free? && first.nblks == n - h && second.nblks == hdrs[h].nblks - (n - h)
    ensures OnlyBefore(z, n, big)
  {
    forall d: nat | !big && Mergeable(z, d) && d != h ensures d + NBlks(z, d) == n {
      var c := d + NBlks(z, d);
      assert !Mergeable(hdrs, if d == n then h else d);
      if d != n && c == h {
        AdjacentIsMergeable(hdrs, owner, d, h);
      } else if d == n && c != n {
        AdjacentIsMergeable(hdrs, owner, h, c);
      }
    }
  }

  /** Block `h` is cut to its first part; the rest was not mergeable with what follows it. */
  lemma CutMergeable(hdrs: Headers, z: Headers, owner: map<nat, nat>, h: nat, n: nat, first: Hdr, second: Hdr, big: bool)
    requires Tiled(hdrs, owner) && (big || |owner.Keys| < HALF) && OnlyBefore(hdrs, h, big)
    requires h in hdrs && hdrs[h].Free? && h < n < h + hdrs[h].nblks && n !in hdrs && z == hdrs[h := first][n := second]
    requires first.Free? && second.Free? && first.nblks == n - h && second.nblks == hdrs[h].nblks - (n - h)
    ensures OnlyAround(z, h, big)
  {
    forall d: nat | !big && Mergeable(z, d) && d != h ensures d + NBlks(z, d) == h {
      var c := d + NBlks(z, d);
      if d == n {
        assert !Mergeable(hdrs, h);
        if c in hdrs && hdrs[c].Free? {
          AdjacentIsMergeable(hdrs, owner, h, c);
        }
      } else {
        assert c == n ==> InBlock(hdrs, d, n - 1) && InBlock(hdrs, h, n - 1);
        assert c != h ==> Mergeable(hdrs, d);
      }
    }
  }

  /** Once `h` is in use, nothing is mergeable. */
  lemma UseMergeable(hdrs: Headers, h: nat, m: Hdr, big: bool)
    requires OnlyAround(hdrs, h, big) && m.Used?
    ensures NoneMergeable(hdrs[h := m], big)
  {
    var z := hdrs[h := m];
    forall d: nat | !big ensures !Mergeable(z, d) {
      assert Mergeable(z, d) ==> Mergeable(hdrs, d);
    }
  }

  // -----------------------------------------------------------------------------------
  // Splitting and cutting
  // -----------------------------------------------------------------------------------

  lemma HomedSplit(hdrs: Headers, z: Headers, home: map<nat, nat>, h: nat, n: nat, first: Hdr, second: Hdr, index: nat)
    requires Homed(hdrs, home, {}, {}) && h in home && n !in hdrs && first.Free? && second.Free?
    requires SameBlocks(hdrs[h := first][n := second], z)
    ensures Homed(z, (home - {h})[n := index], {h}, {n})
  {
  }

  lemma HomedCut(hdrs: Headers, home: map<nat, nat>, h: nat, n: nat, first: Hdr, second: Hdr)
    requires Homed(hdrs, home, {h}, {}) && n !in hdrs && first.Free? && second.Free?
    ensures Homed(hdrs[h := first][n := second], home, {h, n}, {})
  {
  }

  lemma HomedUse(hdrs: Headers, home: map<nat, nat>, h: nat, m: Hdr)
    requires Homed(hdrs, home, {h}, {}) && m.Used?
    ensures Homed(hdrs[h := m], home, {}, {})
  {
  }

  /** A listed block that is odd is not odd any more once it is off its list. */
  lemma HomedTaken(hdrs: Headers, z: Headers, home: map<nat, nat>, h: nat)
    requires Homed(hdrs, home, {}, {h}) && SameBlocks(hdrs, z) && h in home
    ensures Homed(z, home - {h}, {h}, {})
  {
  }

  lemma ReplacedSame(hdrs: Headers, l: seq<nat>, k: nat, n: nat, second: Hdr, first: Hdr)
    requires k < |l| && NoRepeats(l) && n !in hdrs && 0 !in hdrs && l[k] in hdrs && first.Free? && second.Free?
    ensures SameBlocks(hdrs[l[k] := first][n := second], Replaced(hdrs, l, k, n, second.nblks, second.mapped)[l[k] := first])
  {
  }

  lemma ReplacedIsDivided(hdrs: Headers, l: seq<nat>, k: nat, n: nat)
    requires k < |l| && NoRepeats(l) && n !in hdrs && 0 !in hdrs && l[k] in hdrs && l[k] < n < l[k] + NBlks(hdrs, l[k])
    ensures var h := l[k];
      SameBlocks(Divided(hdrs, h, n), Replaced(hdrs, l, k, n, NBlks(hdrs, h) - (n - h), true)[h := Free(n - h, 0, 0, true)])
  {
    hide SameBlocks, Replaced;
    ReplacedSame(hdrs, l, k, n, Free(NBlks(hdrs, l[k]) - (n - l[k]), 0, 0, true), Free(n - l[k], 0, 0, true));
  }

  lemma DividedHomed(hdrs: Headers, z: Headers, home: map<nat, nat>, h: nat, n: nat, index: nat)
    requires Homed(hdrs, home, {}, {}) && h in home && n !in hdrs && h < n < h + NBlks(hdrs, h)
    requires SameBlocks(Divided(hdrs, h, n), z)
    ensures Homed(z, (home - {h})[n := index], {h}, {n})
  {
    hide Homed, SameBlocks;
    HomedSplit(hdrs, z, home, h, n, Free(n - h, 0, 0, true), Free(NBlks(hdrs, h) - (n - h), 0, 0, true), index);
  }

  /** The heap but for what the search itself is about. */
  ghost predicate Basics(bh: BlockHeap, limbo: set<nat>, odd: set<nat>)
    reads bh`hdrs, bh`heads, bh`freeBlks, bh`lists, bh`home, bh`owner, bh`heapSize, bh`blackLists
  {
    && bh.Fit() && bh.Lying() && Homed(bh.hdrs, bh.home, limbo, odd) && AllMapped(bh.hdrs)
    && bh.blackLists.Valid()
  }

  /** Free block `h` divided at `n`, but for the links. */
  function Divided(hdrs: Headers, h: nat, n: nat): Headers
    requires h <= n <= h + NBlks(hdrs, h)
  {
    hdrs[h := Free(n - h, 0, 0, true)][n := Free(NBlks(hdrs, h) - (n - h), 0, 0, true)]
  }

  /** The heap with free block `at` cut down to its first `n` heap blocks. */
  function FirstPart(hdrs: Headers, at: nat, n: nat): Headers {
    if NBlks(hdrs, at) > n then Divided(hdrs, at, at + n) else hdrs
  }

  /** Free block `h` with what comes before address `at` cut off. */
  function CutBefore(hdrs: Headers, h: nat, at: nat): Headers {
    if h < at <= h + NBlks(hdrs, h) then Divided(hdrs, h, at) else hdrs
  }

  /** A block for objects of `sz` bytes has been taken out of free block `h`, at address `at`. */
  ghost predicate TakenOut(hdrs: Headers, z: Headers, h: nat, at: nat, sz: nat, kind: M.Kind) {
    && h in hdrs && hdrs[h].Free? && h <= at && at + ObjSzToBlocks(sz) <= h + NBlks(hdrs, h)
    && SameBlocks(FirstPart(CutBefore(hdrs, h, at), at, ObjSzToBlocks(sz))[at := Used(sz, kind)], z)
  }

  lemma DividedSame(hdrs: Headers, z: Headers, h: nat, n: nat)
    requires SameBlocks(hdrs, z) && h <= n <= h + NBlks(hdrs, h)
    ensures n <= h + NBlks(z, h) && SameBlocks(Divided(hdrs, h, n), Divided(z, h, n))
  {
  }

  lemma FirstPartSame(hdrs: Headers, z: Headers, at: nat, n: nat)
    requires SameBlocks(hdrs, z)
    ensures SameBlocks(FirstPart(hdrs, at, n), FirstPart(z, at, n))
  {
    if NBlks(hdrs, at) > n {
      DividedSame(hdrs, z, at, at + n);
    }
  }

  /** The links do not matter. */
  lemma TakenOutSame(hdrs: Headers, y: Headers, z: Headers, h: nat, at: nat, sz: nat, kind: M.Kind)
    requires SameBlocks(hdrs, y) && TakenOut(y, z, h, at, sz, kind)
    ensures TakenOut(hdrs, z, h, at, sz, kind)
  {
    hide Divided, FirstPart;
    if h < at {
      DividedSame(hdrs, y, h, at);
    }
    var n := ObjSzToBlocks(sz);
    var a, b := CutBefore(hdrs, h, at), CutBefore(y, h, at);
    FirstPartSame(a, b, at, n);
    UsedSame(FirstPart(a, at, n), FirstPart(b, at, n), at, Used(sz, kind));
    SameBlocksTrans(FirstPart(a, at, n)[at := Used(sz, kind)], FirstPart(b, at, n)[at := Used(sz, kind)], z);
  }

  lemma UsedSame(hdrs: Headers, z: Headers, at: nat, m: Hdr)
    requires SameBlocks(hdrs, z) && m.Used?
    ensures SameBlocks(hdrs[at := m], z[at := m])
  {
  }

  lemma DividedTiled(hdrs: Headers, z: Headers, owner: map<nat, nat>, h: nat, n: nat)
    requires Tiled(hdrs, owner) && h in hdrs && hdrs[h].Free? && h < n < h + NBlks(hdrs, h)
    requires SameBlocks(Divided(hdrs, h, n), z)
    ensures n !in hdrs && n != 0
    ensures var o := Owned(owner, n, NBlks(hdrs, h) - (n - h));
      && Tiled(z, o) && FreeCells(z, o) == FreeCells(hdrs, owner) && UsedOf(z) == UsedOf(hdrs) && o.Keys == owner.Keys
  {
    hide Tiled, FreeCells, UsedOf, Owned, SameBlocks;
    var first, second := Free(n - h, 0, 0, true), Free(NBlks(hdrs, h) - (n - h), 0, 0, true);
    NewIsNotInside(hdrs, owner, h, n);
    SplitTiled(hdrs, owner, h, n, first, second);
    SameBlocksTiled(Divided(hdrs, h, n), z, Owned(owner, n, NBlks(hdrs, h) - (n - h)));
  }

  lemma DividedMapped(hdrs: Headers, z: Headers, h: nat, n: nat)
    requires AllMapped(hdrs) && h <= n <= h + NBlks(hdrs, h) && SameBlocks(Divided(hdrs, h, n), z)
    ensures AllMapped(z)
  {
  }

  lemma NewIsNotInside(hdrs: Headers, owner: map<nat, nat>, h: nat, n: nat)
    requires Tiled(hdrs, owner) && h in hdrs && h < n < h + BlkSize(hdrs[h])
    ensures n !in hdrs
  {
    assert InBlock(hdrs, h, n);
    assert n in hdrs ==> InBlock(hdrs, n, n);
  }

  /** Block `n` takes the place of `h` on list `index`, which loses the first `hSize` blocks of it. */
  method LinkInPlace(bh: BlockHeap, h: nat, n: nat, hSize: nat, index: nat, ghost k: nat)
    requires bh.Fit() && bh.OnList(h, index, k) && n !in bh.hdrs && n != 0 && hSize <= NBlks(bh.hdrs, h)
    modifies bh`hdrs, bh`heads, bh`freeBlks, bh`lists, bh`home
    ensures bh.Fit() && old(bh.OnList(h, index, k) && h in bh.home)
    ensures bh.hdrs == old(Replaced(bh.hdrs, bh.lists[index], k, n, Diff(NBlks(bh.hdrs, h), hSize), true))
    ensures bh.lists == old(bh.lists[index := Put(bh.lists[index], k, n)]) && bh.home == old((bh.home - {h})[n := index])
  {
    hide ListsFit, Put;
    bh.OnListFacts(h, index, k);
    bh.HomedInHeaders();
    ghost var l, hdrs0, heads0 := bh.lists[index], bh.hdrs, bh.heads;
    var hhdr := bh.hdrs[h];
    var size := hhdr.nblks - hSize;
    ReplaceFits(bh.hdrs, bh.heads, bh.freeBlks, bh.lists, bh.home, index, k, n, size, true);
    bh.hdrs := bh.hdrs[n := Free(size, hhdr.prev, hhdr.next, true)];
    if hhdr.prev != 0 {
      bh.hdrs := SetNext(bh.hdrs, hhdr.prev, n);
    } else {
      bh.heads := bh.heads[index := n];
    }
    if hhdr.next != 0 {
      bh.hdrs := SetPrev(bh.hdrs, hhdr.next, n);
    }
    bh.freeBlks := bh.freeBlks[index := bh.freeBlks[index] - hSize];
    assert bh.hdrs == Replaced(hdrs0, l, k, n, size, true);
    assert bh.heads == heads0[index := if k == 0 then n else heads0[index]];
    bh.lists, bh.home := bh.lists[index := Put(l, k, n)], (bh.home - {h})[n := index];
  }

  lemma DiffIs(a: nat, b: nat)
    requires b <= a
    ensures Diff(a, b) == a - b
  {
  }

  /** Block `n` is on the list instead of `h`, which is cut to what is before `n`. */
  method ReplaceLinks(bh: BlockHeap, h: nat, n: nat, index: nat, ghost k: nat)
    requires bh.Fit() && bh.OnList(h, index, k) && h < n < h + NBlks(bh.hdrs, h) && n !in bh.hdrs
    modifies bh`hdrs, bh`heads, bh`freeBlks, bh`lists, bh`home
    ensures bh.Fit() && SameBlocks(Divided(old(bh.hdrs), h, n), bh.hdrs)
    ensures old(bh.OnList(h, index, k) && h in bh.home)
    ensures bh.lists == old(bh.lists[index := Put(bh.lists[index], k, n)]) && bh.home == old((bh.home - {h})[n := index])
  {
    hide ListsFit, SameBlocks, Put, Replaced, Divided, Diff;
    bh.OnListFacts(h, index, k);
    ghost var l, hdrs0 := bh.lists[index], bh.hdrs;
    ListedOnce(bh.hdrs, bh.heads, bh.freeBlks, bh.lists, bh.home, index);
    var first := Free(n - h, 0, 0, true);
    DiffIs(NBlks(hdrs0, h), n - h);
    ReplacedIsDivided(hdrs0, l, k, n);
    LinkInPlace(bh, h, n, n - h, index, k);
    bh.HomedInHeaders();
    OthersFit(bh.hdrs, bh.hdrs[h := first], bh.heads, bh.freeBlks, bh.lists, bh.home);
    bh.hdrs := bh.hdrs[h := first];
  }

  /** The first half of `GC_split_block`: block `n` takes the place of `h`, which keeps what is before `n`. */
  method ReplaceOnList(bh: BlockHeap, h: nat, n: nat, index: nat, ghost k: nat)
    requires Basics(bh, {}, {}) && bh.OnList(h, index, k) && h < n < h + NBlks(bh.hdrs, h)
    modifies bh`hdrs, bh`heads, bh`freeBlks, bh`lists, bh`home, bh`owner
    ensures Basics(bh, {h}, {n}) && bh.SameHeap()
    ensures SameBlocks(Divided(old(bh.hdrs), h, n), bh.hdrs)
    ensures old(bh.OnList(h, index, k)) && bh.lists == old(bh.lists[index := Put(bh.lists[index], k, n)])
  {
    hide Tiled, Homed, AllMapped, SameBlocks, FreeCells, UsedOf, Owned, Put, Divided, bh.Fit;
    bh.OnListFacts(h, index, k);
    NewIsNotInside(bh.hdrs, bh.owner, h, n);
    ghost var hdrs0, home0 := bh.hdrs, bh.home;
    ReplaceLinks(bh, h, n, index, k);
    DividedTiled(hdrs0, bh.hdrs, bh.owner, h, n);
    DividedMapped(hdrs0, bh.hdrs, h, n);
    DividedHomed(hdrs0, bh.hdrs, home0, h, n, index);
    bh.owner := Owned(bh.owner, n, NBlks(hdrs0, h) - (n - h));
  }

  lemma ListedOnce(hdrs: Headers, heads: seq<nat>, freeBlks: seq<nat>, lists: seq<seq<nat>>, home: map<nat, nat>, i: nat)
    requires ListsFit(hdrs, heads, freeBlks, lists, home) && i < |lists|
    ensures NoRepeats(lists[i]) && heads[i] == At(lists[i], 0)
  {
  }

  lemma SameBlocksOnly(hdrs: Headers, z: Headers, h: nat, big: bool)
    requires SameBlocks(hdrs, z)
    ensures OnlyBefore(hdrs, h, big) ==> OnlyBefore(z, h, big)
    ensures OnlyAround(hdrs, h, big) ==> OnlyAround(z, h, big)
    ensures AllMapped(hdrs) ==> AllMapped(z)
    ensures NBlks(z, h) == NBlks(hdrs, h)
  {
    SameBlocksMergeable(hdrs, z);
  }

  lemma DividedOnlyBefore(hdrs: Headers, z: Headers, owner: map<nat, nat>, h: nat, n: nat, big: bool)
    requires Tiled(hdrs, owner) && (big || |owner.Keys| < HALF) && NoneMergeable(hdrs, big)
    requires h in hdrs && hdrs[h].Free? && h < n < h + NBlks(hdrs, h) && SameBlocks(Divided(hdrs, h, n), z)
    ensures OnlyBefore(z, n, big)
    ensures n in z && NBlks(z, n) == NBlks(hdrs, h) - (n - h) && NBlks(z, h) == n - h
  {
    var first, second := Free(n - h, 0, 0, true), Free(NBlks(hdrs, h) - (n - h), 0, 0, true);
    NewIsNotInside(hdrs, owner, h, n);
    SplitMergeable(hdrs, Divided(hdrs, h, n), owner, h, n, first, second, big);
    SameBlocksOnly(Divided(hdrs, h, n), z, n, big);
    SameBlocksOnly(Divided(hdrs, h, n), z, h, big);
  }

  lemma LimboOdd(hdrs: Headers, owner: map<nat, nat>, home: map<nat, nat>, h: nat, limbo: set<nat>, odd: set<nat>)
    requires Homed(hdrs, home, limbo, odd) && Tiled(hdrs, owner) && h in limbo
    ensures h !in home && h in hdrs && hdrs[h].Free? && h != 0 && hdrs[h].nblks == NBlks(hdrs, h)
  {
  }

  /** A free block goes from limbo to the list for its size, and nothing else changes. */
  method PutBack(bh: BlockHeap, h: nat, ghost limbo: set<nat>, ghost odd: set<nat>)
    requires Basics(bh, limbo, odd) && h in limbo
    modifies bh`hdrs, bh`heads, bh`freeBlks, bh`lists, bh`home
    ensures Basics(bh, limbo - {h}, odd) && bh.SameHeap() && SameBlocks(old(bh.hdrs), bh.hdrs)
    ensures bh.lists == old(var i := FlIndex(NBlks(bh.hdrs, h)); if i < |bh.lists| then bh.lists[i := [h] + bh.lists[i]] else bh.lists)
  {
    hide ListsFit, Tiled, Homed, AllMapped, SameBlocks, FreeCells, UsedOf, FlIndex;
    LimboOdd(bh.hdrs, bh.owner, bh.home, h, limbo, odd);
    bh.AddToFl(h);
    SameBlocksTiled(old(bh.hdrs), bh.hdrs, bh.owner);
    SameBlocksOnly(old(bh.hdrs), bh.hdrs, h, true);
    HomedMore(old(bh.hdrs), bh.hdrs, old(bh.home), limbo, odd, h);
  }

  /** `GC_split_block`: `n` is left on list `index`, which may be the wrong one for its size. */
  method SplitBlock(bh: BlockHeap, h: nat, n: nat, index: nat, ghost k: nat) returns (ghost at: nat)
    requires Basics(bh, {}, {}) && NoneMergeable(bh.hdrs, bh.heapSize >= HALF)
    requires bh.OnList(h, index, k) && h < n < h + NBlks(bh.hdrs, h)
    modifies bh`hdrs, bh`heads, bh`freeBlks, bh`lists, bh`home, bh`owner
    ensures Basics(bh, {}, {n}) && bh.SameHeap() && OnlyBefore(bh.hdrs, n, bh.heapSize >= HALF)
    ensures bh.OnList(n, index, at) && NBlks(bh.hdrs, n) == old(NBlks(bh.hdrs, h)) - (n - h)
    ensures SameBlocks(Divided(old(bh.hdrs), h, n), bh.hdrs)
  {
    hide ListsFit, Tiled, Homed, AllMapped, SameBlocks, FreeCells, UsedOf, Mergeable, FlIndex, NBlks;
    bh.OnListFacts(h, index, k);
    ghost var hdrs0, owner0, l := bh.hdrs, bh.owner, bh.lists[index];
    ReplaceOnList(bh, h, n, index, k);
    DividedOnlyBefore(hdrs0, bh.hdrs, owner0, h, n, bh.heapSize >= HALF);
    ghost var hdrs1 := bh.hdrs;
    PutBack(bh, h, {h}, {n});
    assert {h} - {h} == {};
    SameBlocksTrans(Divided(hdrs0, h, n), hdrs1, bh.hdrs);
    SameBlocksOnly(hdrs1, bh.hdrs, n, bh.heapSize >= HALF);
    at := if FlIndex(NBlks(hdrs1, h)) == index then k + 1 else k;
  }

  /** Block `h` is cut in two, while it is on no list. */
  method Cut(bh: BlockHeap, h: nat, n: nat)
    requires Basics(bh, {h}, {}) && OnlyBefore(bh.hdrs, h, bh.heapSize >= HALF) && h < n < h + NBlks(bh.hdrs, h)
    modifies bh`hdrs, bh`owner
    ensures Basics(bh, {h, n}, {}) && bh.SameHeap() && OnlyAround(bh.hdrs, h, bh.heapSize >= HALF)
    ensures NBlks(bh.hdrs, h) == n - h && bh.hdrs == Divided(old(bh.hdrs), h, n)
  {
    hide ListsFit, Tiled, Homed, AllMapped, SameBlocks, FreeCells, UsedOf, Mergeable, Owned;
    LimboOdd(bh.hdrs, bh.owner, bh.home, h, {h}, {});
    ghost var hdrs0 := bh.hdrs;
    var first, second := Free(n - h, 0, 0, true), Free(bh.hdrs[h].nblks - (n - h), 0, 0, true);
    NewIsNotInside(hdrs0, bh.owner, h, n);
    CutMergeable(hdrs0, hdrs0[h := first][n := second], bh.owner, h, n, first, second, bh.heapSize >= HALF);
    HomedCut(hdrs0, bh.home, h, n, first, second);
    SameAsItself(Divided(hdrs0, h, n));
    DividedTiled(hdrs0, Divided(hdrs0, h, n), bh.owner, h, n);
    DividedMapped(hdrs0, Divided(hdrs0, h, n), h, n);
    bh.HomedInHeaders();
    OthersFit(hdrs0, Divided(hdrs0, h, n), bh.heads, bh.freeBlks, bh.lists, bh.home);
    bh.hdrs := bh.hdrs[h := first][n := second];
    bh.owner := Owned(bh.owner, n, second.nblks);
  }

  lemma SameAsItself(hdrs: Headers)
    ensures SameBlocks(hdrs, hdrs)
  {
  }

  lemma BeforeIsAround(hdrs: Headers, h: nat, big: bool)
    requires OnlyBefore(hdrs, h, big)
    ensures OnlyAround(hdrs, h, big)
  {
  }

  /** `GC_get_first_part`: block `h` comes off its list, and what is more than `bytes` of it goes back to one. */
  method GetFirstPart(bh: BlockHeap, h: nat, bytes: nat, index: nat, ghost k: nat)
    requires Basics(bh, {}, {h}) && OnlyBefore(bh.hdrs, h, bh.heapSize >= HALF)
    requires bh.OnList(h, index, k) && 1 <= bytes <= NBlks(bh.hdrs, h)
    modifies bh`hdrs, bh`heads, bh`freeBlks, bh`lists, bh`home, bh`owner
    ensures Basics(bh, {h}, {}) && bh.SameHeap() && OnlyAround(bh.hdrs, h, bh.heapSize >= HALF)
    ensures NBlks(bh.hdrs, h) == bytes && SameBlocks(FirstPart(old(bh.hdrs), h, bytes), bh.hdrs)
  {
    hide ListsFit, Tiled, Homed, AllMapped, SameBlocks, FreeCells, UsedOf, OnlyBefore, OnlyAround, Divided, Without;
    bh.OnListFacts(h, index, k);
    ghost var hdrs0, home0 := bh.hdrs, bh.home;
    var totalSize := bh.hdrs[h].nblks;
    bh.RemoveFromFlAt(h, index, k);
    SameBlocksTiled(hdrs0, bh.hdrs, bh.owner);
    SameBlocksOnly(hdrs0, bh.hdrs, h, bh.heapSize >= HALF);
    HomedTaken(hdrs0, bh.hdrs, home0, h);
    FirstPartSame(hdrs0, bh.hdrs, h, bytes);
    if totalSize == bytes {
      BeforeIsAround(bh.hdrs, h, bh.heapSize >= HALF);
    } else {
      ghost var hdrs1 := bh.hdrs;
      PutBackRest(bh, h, bytes);
      SameBlocksTrans(FirstPart(hdrs0, h, bytes), FirstPart(hdrs1, h, bytes), bh.hdrs);
    }
  }

  /** What is more than `bytes` of block `h` goes back to a list. */
  method PutBackRest(bh: BlockHeap, h: nat, bytes: nat)
    requires Basics(bh, {h}, {}) && OnlyBefore(bh.hdrs, h, bh.heapSize >= HALF) && 1 <= bytes < NBlks(bh.hdrs, h)
    modifies bh`hdrs, bh`heads, bh`freeBlks, bh`lists, bh`home, bh`owner
    ensures Basics(bh, {h}, {}) && bh.SameHeap() && OnlyAround(bh.hdrs, h, bh.heapSize >= HALF)
    ensures NBlks(bh.hdrs, h) == bytes && SameBlocks(FirstPart(old(bh.hdrs), h, bytes), bh.hdrs)
  {
    hide Basics, SameBlocks, FreeCells, UsedOf, OnlyBefore, OnlyAround, Divided, NBlks;
    var rest := h + bytes;
    Cut(bh, h, rest);
    ghost var hdrs1 := bh.hdrs;
    PutBack(bh, rest, {h, rest}, {});
    assert {h, rest} - {rest} == {h};
    SameBlocksOnly(hdrs1, bh.hdrs, h, bh.heapSize >= HALF);
  }

  /** `setup_header`: the block comes into use. */
  method SetupHeader(bh: BlockHeap, h: nat, sz: nat, kind: M.Kind)
    requires Basics(bh, {h}, {}) && OnlyAround(bh.hdrs, h, bh.heapSize >= HALF)
    requires NBlks(bh.hdrs, h) == ObjSzToBlocks(sz)
    modifies bh`hdrs
    ensures Basics(bh, {}, {}) && NoneMergeable(bh.hdrs, bh.heapSize >= HALF)
    ensures |FreeCells(bh.hdrs, bh.owner)| == old(|FreeCells(bh.hdrs, bh.owner)|) - ObjSzToBlocks(sz)
    ensures old(|FreeCells(bh.hdrs, bh.owner)|) >= ObjSzToBlocks(sz)
    ensures h !in old(UsedOf(bh.hdrs)) && UsedOf(bh.hdrs) == old(UsedOf(bh.hdrs))[h := Used(sz, kind)]
    ensures bh.hdrs == old(bh.hdrs)[h := Used(sz, kind)]
  {
    hide ListsFit, Tiled, Homed, AllMapped, Mergeable, Cells;
    LimboOdd(bh.hdrs, bh.owner, bh.home, h, {h}, {});
    var m := Used(sz, kind);
    RetagTiled(bh.hdrs, bh.owner, h, m);
    CellsCount(h, BlkSize(m));
    HomedUse(bh.hdrs, bh.home, h, m);
    UseMergeable(bh.hdrs, h, m, bh.heapSize >= HALF);
    bh.HomedInHeaders();
    OthersFit(bh.hdrs, bh.hdrs[h := m], bh.heads, bh.freeBlks, bh.lists, bh.home);
    UsedMapped(bh.hdrs, h, m);
    bh.hdrs := bh.hdrs[h := m];
  }

  lemma UsedMapped(hdrs: Headers, h: nat, m: Hdr)
    requires AllMapped(hdrs) && m.Used?
    ensures AllMapped(hdrs[h := m])
  {
  }

  lemma ListedIsNotOdd(hdrs: Headers, home: map<nat, nat>, h: nat)
    requires Homed(hdrs, home, {}, {})
    ensures Homed(hdrs, home, {}, {h})
  {
  }

  lemma NoneIsBefore(hdrs: Headers, h: nat, big: bool)
    requires NoneMergeable(hdrs, big)
    ensures OnlyBefore(hdrs, h, big)
  {
  }

  lemma TakenInSteps(hdrs: Headers, y: Headers, x: Headers, z: Headers, h: nat, at: nat, sz: nat, kind: M.Kind)
    requires h in hdrs && hdrs[h].Free? && h <= at && at + ObjSzToBlocks(sz) <= h + NBlks(hdrs, h)
    requires SameBlocks(CutBefore(hdrs, h, at), y) && SameBlocks(FirstPart(y, at, ObjSzToBlocks(sz)), x)
    requires z == x[at := Used(sz, kind)]
    ensures TakenOut(hdrs, z, h, at, sz, kind)
  {
    hide SameBlocks, FirstPart, CutBefore;
    var n := ObjSzToBlocks(sz);
    FirstPartSame(CutBefore(hdrs, h, at), y, at, n);
    SameBlocksTrans(FirstPart(CutBefore(hdrs, h, at), at, n), FirstPart(y, at, n), x);
    UsedSame(FirstPart(CutBefore(hdrs, h, at), at, n), x, at, Used(sz, kind));
  }

  /** A block for objects of size `sz` is taken out of free block `h`, from address `at` on. */
  method Take(bh: BlockHeap, h: nat, at: nat, sz: nat, kind: M.Kind, n: nat, ghost k: nat)
    requires bh.Valid() && bh.OnList(h, n, k) && sz > 0
    requires h <= at && at + ObjSzToBlocks(sz) <= h + NBlks(bh.hdrs, h)
    modifies bh`hdrs, bh`heads, bh`freeBlks, bh`lists, bh`home, bh`owner, bh`largeFree
    ensures bh.Valid() && bh.owner.Keys == old(bh.owner.Keys)
    ensures at !in old(UsedOf(bh.hdrs)) && UsedOf(bh.hdrs) == old(UsedOf(bh.hdrs))[at := Used(sz, kind)]
    ensures bh.largeFree == old(bh.largeFree) - ObjSzToBlocks(sz)
    ensures TakenOut(old(bh.hdrs), bh.hdrs, h, at, sz, kind)
  {
    hide ListsFit, Tiled, Homed, AllMapped, SameBlocks, FreeCells, UsedOf, NoneMergeable, OnlyBefore, OnlyAround;
    hide Divided, FirstPart;
    bh.OnListFacts(h, n, k);
    SameAsItself(bh.hdrs);
    ghost var j := k;
    if at != h {
      j := SplitBlock(bh, h, at, n, k);
    } else {
      ListedIsNotOdd(bh.hdrs, bh.home, h);
      NoneIsBefore(bh.hdrs, h, bh.heapSize >= HALF);
    }
    ghost var y := bh.hdrs;
    GetFirstPart(bh, at, ObjSzToBlocks(sz), n, j);
    ghost var x := bh.hdrs;
    SetupHeader(bh, at, sz, kind);
    TakenInSteps(old(bh.hdrs), y, x, bh.hdrs, h, at, sz, kind);
    bh.largeFree := bh.largeFree - ObjSzToBlocks(sz);
  }

  // -----------------------------------------------------------------------------------
  // Giving up a block
  // -----------------------------------------------------------------------------------

  lemma GivenUpMergeable(hdrs: Headers, home: map<nat, nat>, h: nat, c: set<nat>, big: bool)
    requires NoneMergeable(hdrs, big) && Homed(hdrs, home, {h}, {}) && AllMapped(hdrs)
    requires h in c && forall b :: b in hdrs && b in c ==> b == h
    ensures NoneMergeable(hdrs + GivenUp(c), big) && Homed(hdrs + GivenUp(c), home, {}, {}) && AllMapped(hdrs + GivenUp(c))
  {
    var z := hdrs + GivenUp(c);
    forall d: nat | !big ensures !Mergeable(z, d) {
      assert Mergeable(z, d) ==> Mergeable(hdrs, d);
    }
  }

  lemma GiveUpOne(hdrs: Headers, h: nat, n: nat)
    ensures (hdrs + GivenUp(Cells(h, n)))[h + n := Used(HBLKSIZE, M.PtrFree)] == hdrs + GivenUp(Cells(h, n + 1))
  {
    assert Cells(h, n + 1) == Cells(h, n) + {h + n};
  }

  /** No list holds more than it did. */
  ghost predicate Thinner(freeBlks: seq<nat>, before: seq<nat>) {
    |freeBlks| == |before| && forall i :: 0 <= i < |before| ==> freeBlks[i] <= before[i]
  }

  /** A free block is taken off the list it is on. */
  method TakeOff(bh: BlockHeap, h: nat, n: nat, ghost k: nat)
    requires Basics(bh, {}, {}) && NoneMergeable(bh.hdrs, bh.heapSize >= HALF) && bh.OnList(h, n, k)
    modifies bh`hdrs, bh`heads, bh`freeBlks, bh`lists, bh`home
    ensures Basics(bh, {h}, {}) && NoneMergeable(bh.hdrs, bh.heapSize >= HALF) && bh.SameHeap()
    ensures old(bh.OnList(h, n, k)) && bh.lists == old(bh.lists[n := Without(bh.lists[n], k)])
    ensures NBlks(bh.hdrs, h) == old(NBlks(bh.hdrs, h)) && SameBlocks(old(bh.hdrs), bh.hdrs)
    ensures Thinner(bh.freeBlks, old(bh.freeBlks))
  {
    hide ListsFit, Tiled, Homed, AllMapped, SameBlocks, FreeCells, UsedOf, NoneMergeable, Without, Diff;
    bh.OnListFacts(h, n, k);
    DiffIs(bh.freeBlks[n], NBlks(bh.hdrs, h));
    ghost var hdrs0, home0 := bh.hdrs, bh.home;
    bh.RemoveFromFlAt(h, n, k);
    SameBlocksTiled(hdrs0, bh.hdrs, bh.owner);
    SameBlocksMapped(hdrs0, bh.hdrs);
    SameBlocksOnly(hdrs0, bh.hdrs, h, true);
    HomedLess(hdrs0, bh.hdrs, home0, {}, {}, h);
    assert {} + {h} == {h};
  }

  lemma GivenUpFits(hdrs: Headers, heads: seq<nat>, freeBlks: seq<nat>, lists: seq<seq<nat>>, home: map<nat, nat>,
                    h: nat, c: set<nat>)
    requires ListsFit(hdrs, heads, freeBlks, lists, home) && Homed(hdrs, home, {h}, {}) && 0 !in c
    requires forall b :: b in hdrs && b in c ==> b == h
    ensures ListsFit(hdrs + GivenUp(c), heads, freeBlks, lists, home)
  {
    OthersFit(hdrs, hdrs + GivenUp(c), heads, freeBlks, lists, home);
  }

  /** Free block `h` is given up in pieces. */
  method GiveUp(bh: BlockHeap, h: nat)
    requires Basics(bh, {h}, {}) && NoneMergeable(bh.hdrs, bh.heapSize >= HALF)
    modifies bh`hdrs, bh`owner
    ensures Basics(bh, {}, {}) && NoneMergeable(bh.hdrs, bh.heapSize >= HALF) && bh.owner.Keys == old(bh.owner.Keys)
    ensures old(NBlks(bh.hdrs, h) <= |FreeCells(bh.hdrs, bh.owner)|)
    ensures |FreeCells(bh.hdrs, bh.owner)| == old(Diff(|FreeCells(bh.hdrs, bh.owner)|, NBlks(bh.hdrs, h)))
    ensures var c := Cells(h, old(NBlks(bh.hdrs, h)));
      && UsedOf(bh.hdrs) == old(UsedOf(bh.hdrs)) + GivenUp(c) && c !! old(UsedOf(bh.hdrs)).Keys
      && bh.hdrs == old(bh.hdrs) + GivenUp(c)
  {
    hide ListsFit, Tiled, Homed, AllMapped, FreeCells, UsedOf, NoneMergeable, Cells, GivenUp;
    LimboOdd(bh.hdrs, bh.owner, bh.home, h, {h}, {});
    var n := bh.hdrs[h].nblks;
    ghost var c, hdrs1 := Cells(h, n), bh.hdrs;
    ShatterTiled(hdrs1, bh.owner, h, n);
    CellsCount(h, n);
    CardinalityOfDifference(FreeCells(hdrs1, bh.owner), c);
    HeadIsCell(hdrs1, bh.owner, h, n);
    GivenUpMergeable(hdrs1, bh.home, h, c, bh.heapSize >= HALF);
    FreeIsNotUsed(hdrs1, c, h);
    GivenUpFits(hdrs1, bh.heads, bh.freeBlks, bh.lists, bh.home, h, c);
    GiveUpAll(bh, h, n);
    bh.owner := map x | x in bh.owner :: if InRange(x, h, n) then x else bh.owner[x];
  }

  lemma GivenUpSame(hdrs: Headers, z: Headers, c: set<nat>)
    requires SameBlocks(hdrs, z)
    ensures SameBlocks(hdrs + GivenUp(c), z + GivenUp(c))
  {
  }

  lemma ValidIsBasics(bh: BlockHeap)
    requires bh.Valid()
    ensures Basics(bh, {}, {}) && NoneMergeable(bh.hdrs, bh.heapSize >= HALF) && bh.Fit()
    ensures bh.largeFree == |FreeCells(bh.hdrs, bh.owner)|
  {
  }

  lemma BasicsIsValid(bh: BlockHeap)
    requires Basics(bh, {}, {}) && NoneMergeable(bh.hdrs, bh.heapSize >= HALF)
    requires bh.largeFree == |FreeCells(bh.hdrs, bh.owner)|
    ensures bh.Valid()
  {
  }

  /** A black-listed block is taken off its list and given up in pieces. */
  method DropBlock(bh: BlockHeap, h: nat, n: nat, ghost k: nat)
    requires bh.Valid() && bh.OnList(h, n, k)
    modifies bh`hdrs, bh`heads, bh`freeBlks, bh`lists, bh`home, bh`owner, bh`largeFree, bh`dropped
    ensures bh.Valid() && bh.owner.Keys == old(bh.owner.Keys) && old(bh.OnList(h, n, k))
    ensures var c := Cells(h, old(NBlks(bh.hdrs, h)));
      && UsedOf(bh.hdrs) == old(UsedOf(bh.hdrs)) + GivenUp(c) && c !! old(UsedOf(bh.hdrs)).Keys
      && SameBlocks(old(bh.hdrs) + GivenUp(c), bh.hdrs)
    ensures bh.lists == old(bh.lists[n := Without(bh.lists[n], k)]) && Thinner(bh.freeBlks, old(bh.freeBlks))
    ensures bh.dropped == old(bh.dropped + NBlks(bh.hdrs, h))
    ensures bh.largeFree == old(bh.largeFree) - old(NBlks(bh.hdrs, h))
  {
    hide Basics, FreeCells, UsedOf, NoneMergeable, Without, Cells, GivenUp, SameBlocks, bh.Valid, bh.Fit;
    ValidIsBasics(bh);
    bh.OnListFacts(h, n, k);
    var totalSize := bh.hdrs[h].nblks;
    TakeOff(bh, h, n, k);
    GivenUpSame(old(bh.hdrs), bh.hdrs, Cells(h, NBlks(bh.hdrs, h)));
    GiveUp(bh, h);
    bh.largeFree := bh.largeFree - totalSize;
    bh.dropped := bh.dropped + totalSize;
    BasicsIsValid(bh);
  }

  lemma HeadIsCell(hdrs: Headers, owner: map<nat, nat>, h: nat, n: nat)
    requires Tiled(hdrs, owner) && h in hdrs && BlkSize(hdrs[h]) == n
    ensures h in Cells(h, n) && 0 !in Cells(h, n)
  {
  }

  lemma FreeIsNotUsed(hdrs: Headers, c: set<nat>, h: nat)
    requires h in hdrs && hdrs[h].Free? && forall b :: b in hdrs && b in c ==> b == h
    ensures c !! UsedOf(hdrs).Keys
  {
  }

  method GiveUpAll(bh: BlockHeap, h: nat, n: nat)
    modifies bh`hdrs
    ensures bh.hdrs == old(bh.hdrs) + GivenUp(Cells(h, n))
  {
    hide Cells, GivenUp;
    GiveUpNone(bh.hdrs, h);
    for x := 0 to n
      invariant bh.hdrs == old(bh.hdrs) + GivenUp(Cells(h, x))
    {
      GiveUpOne(old(bh.hdrs), h, x);
      bh.hdrs := bh.hdrs[h + x := Used(HBLKSIZE, M.PtrFree)];
    }
  }

  lemma GiveUpNone(hdrs: Headers, h: nat)
    ensures hdrs + GivenUp(Cells(h, 0)) == hdrs
  {
    assert Cells(h, 0) == {};
  }

  // -----------------------------------------------------------------------------------
  // Searching one list
  // -----------------------------------------------------------------------------------

  /** The largest block, in heap blocks, that may start on a black-listed one. */
  const MAX_BLACK_LIST_ALLOC: nat := 2

  predicate IsUncollectable(kind: M.Kind) {
    kind == M.Uncollectable || kind == M.AtomicUncollectable
  }

  /** Blocks of this kind and size are placed without regard to black lists. */
  predicate Exempt(kind: M.Kind, needed: nat) {
    IsUncollectable(kind) || (kind == M.PtrFree && needed <= MAX_BLACK_LIST_ALLOC)
  }

  /** How much of a block must not be black-listed: only its start, if the client keeps pointers to the start. */
  function Effective(needed: nat, ignoreOffPage: bool): (eff: nat)
    ensures needed >= 1 ==> eff >= 1
  {
    if ignoreOffPage then 1 else needed
  }

  /** Free block `b` can serve the request, black lists aside. */
  predicate Fits(hdrs: Headers, b: nat, needed: nat, maySplit: bool) {
    NBlks(hdrs, b) >= needed && (maySplit || NBlks(hdrs, b) == needed)
  }

  /** What to do with a block on the list. `MaybeDrop`: all of it is black-listed. */
  datatype Choice = Skip | TakeAt(at: nat, punt: bool) | MaybeDrop

  /** The loop over `GC_is_black_listed`: the first address that will do, or one beyond `h + slack`. */
  method FindPlace(bl: BL.Lists, h: nat, slack: nat, eff: nat) returns (last: nat)
    requires bl.Valid() && eff >= 1
    ensures h <= last <= h + slack + eff && (last <= h + slack ==> !bl.BlackListed(last, eff))
    ensures forall s :: h <= s < last ==> bl.BlackListed(s, eff)
  {
    hide *;
    last := h;
    while last <= h + slack
      invariant h <= last <= h + slack + eff && forall s :: h <= s < last ==> bl.BlackListed(s, eff)
      decreases h + slack + 1 - last
    {
      var r := BL.IsBlackListed(bl, last, eff);
      if r == 0 {
        return;
      }
      last := r;
    }
  }

  /** The search has found every start from `h` on black-listed, up to the last that leaves room for the block. */
  ghost predicate NoPlace(bl: BL.Lists, h: nat, slack: int, eff: nat)
    requires bl.Valid() && eff >= 1
  {
    forall s :: h <= s <= h + slack ==> bl.BlackListed(s, eff)
  }

  /** A request, with all that a decision about a free block depends on. */
  datatype Request = Request(needed: nat, kind: M.Kind, ignoreOffPage: bool, bl: BL.Lists, blLimit: nat)
  {
    ghost predicate Ok() {
      needed >= 1 && bl.Valid()
    }

    /** Every place in a block of size `nblks` at `b` is black-listed. */
    ghost predicate NoPlaceIn(b: nat, nblks: nat)
      requires Ok()
    {
      NoPlace(bl, b, nblks - needed, Effective(needed, ignoreOffPage))
    }

    /** The request, and what it would leave of the block, are so large that black lists are disregarded. */
    predicate Punts(nblks: nat) {
      needed > blLimit && nblks - needed > blLimit
    }

    /** A free block of size `nblks` at `b` can serve the request. */
    ghost predicate Suits(b: nat, nblks: nat, maySplit: bool)
      requires Ok()
    {
      && nblks >= needed && (maySplit || nblks == needed)
      && (Exempt(kind, needed) || Punts(nblks) || !NoPlaceIn(b, nblks))
    }

    /** Where in the block the request is served: in the first place that is not black-listed, unless this does not count. */
    ghost predicate Places(b: nat, nblks: nat, at: nat, punted: bool)
      requires Ok()
    {
      && b <= at && at + needed <= b + nblks
      && if Exempt(kind, needed) then at == b && !punted
         else if punted then at == b && Punts(nblks) && NoPlaceIn(b, nblks)
         else NoPlace(bl, b, at - b - 1, Effective(needed, ignoreOffPage)) && !bl.BlackListed(at, Effective(needed, ignoreOffPage))
    }
  }

  function Asked(bh: BlockHeap, needed: nat, kind: M.Kind, ignoreOffPage: bool): Request
    reads bh`blackLists
  {
    Request(needed, kind, ignoreOffPage, bh.blackLists, bh.blLimit)
  }

  /** The `k`-th block of a list is passed over for the next one, which fits more closely and is not black-listed. */
  ghost predicate NextFits(hdrs: Headers, bl: BL.Lists, l: seq<nat>, k: nat, needed: nat)
    requires bl.Valid() && k < |l|
  {
    k + 1 < |l| && needed <= NBlks(hdrs, l[k + 1]) < NBlks(hdrs, l[k]) && !bl.BlackListed(l[k + 1], needed)
  }

  lemma NextSuits(q: Request, hdrs: Headers, l: seq<nat>, k: nat)
    requires q.Ok() && k < |l| && NextFits(hdrs, q.bl, l, k, q.needed)
    ensures q.Suits(l[k + 1], NBlks(hdrs, l[k + 1]), true)
  {
    var b := l[k + 1];
    assert b <= b <= b + (NBlks(hdrs, b) - q.needed);
    assert !q.bl.BlackListed(b, Effective(q.needed, q.ignoreOffPage));
  }

  /** The body of the search loop in `GC_allochblk_nth`, up to its decision about block `h`. */
  method Consider(bh: BlockHeap, h: nat, needed: nat, kind: M.Kind, ignoreOffPage: bool, n: nat, maySplit: bool, ghost k: nat)
      returns (c: Choice)
    requires bh.Fit() && bh.blackLists.Valid() && bh.OnList(h, n, k) && needed >= 1
    ensures bh.lists[n][k] == h
    ensures var q := Asked(bh, needed, kind, ignoreOffPage);
      match c {
        case TakeAt(at, punt) => Fits(bh.hdrs, h, needed, maySplit) && q.Places(h, NBlks(bh.hdrs, h), at, punt)
        case MaybeDrop => needed == 1 && !q.Suits(h, NBlks(bh.hdrs, h), maySplit) && AllBlack(q.bl, Cells(h, NBlks(bh.hdrs, h)))
        case Skip =>
          || !q.Suits(h, NBlks(bh.hdrs, h), maySplit)
          || (maySplit && NextFits(bh.hdrs, q.bl, bh.lists[n], k, needed))
      }
    ensures Exempt(kind, needed) ==> !c.MaybeDrop?
    ensures maySplit && NextFits(bh.hdrs, bh.blackLists, bh.lists[n], k, needed) ==> c.Skip?
    ensures c.Skip? && needed == 1 && Fits(bh.hdrs, h, needed, maySplit) && bh.hdrs[h].mapped ==>
              NextFits(bh.hdrs, bh.blackLists, bh.lists[n], k, needed)
  {
    hide AllBlack, NoPlace;
    bh.OnListFacts(h, n, k);
    var hhdr := bh.hdrs[h];
    var avail := hhdr.nblks;
    if avail < needed {
      return Skip;
    }
    if avail != needed {
      if !maySplit {
        return Skip;
      }
      var better := NextIsBetter(bh, h, needed, n, k);
      if better {
        return Skip;
      }
    }
    if Exempt(kind, needed) {
      return TakeAt(h, false);
    }
    c := ConsiderPlace(bh, h, needed, kind, ignoreOffPage);
  }

  /** The next block on the list fits more closely, and is not black-listed. */
  method NextIsBetter(bh: BlockHeap, h: nat, needed: nat, n: nat, ghost k: nat) returns (better: bool)
    requires bh.Fit() && bh.blackLists.Valid() && bh.OnList(h, n, k) && needed >= 1
    ensures bh.OnList(h, n, k) && (better <==> NextFits(bh.hdrs, bh.blackLists, bh.lists[n], k, needed))
  {
    bh.OnListFacts(h, n, k);
    var next := bh.hdrs[h].next;
    better := false;
    if next != 0 {
      bh.OnListFacts(next, n, k + 1);
      var nextSize := bh.hdrs[next].nblks;
      if nextSize < bh.hdrs[h].nblks && nextSize >= needed {
        var r := BL.IsBlackListed(bh.blackLists, next, needed);
        better := r == 0;
      }
    }
  }

  method ConsiderPlace(bh: BlockHeap, h: nat, needed: nat, kind: M.Kind, ignoreOffPage: bool) returns (c: Choice)
    requires bh.blackLists.Valid() && h in bh.hdrs && bh.hdrs[h].Free? && 1 <= needed <= bh.hdrs[h].nblks
    requires !Exempt(kind, needed)
    ensures var q, nblks := Asked(bh, needed, kind, ignoreOffPage), bh.hdrs[h].nblks;
      match c {
        case TakeAt(at, punt) => q.Places(h, nblks, at, punt)
        case MaybeDrop => needed == 1 && !q.Punts(nblks) && q.NoPlaceIn(h, nblks) && AllBlack(q.bl, Cells(h, nblks))
        case Skip => !q.Punts(nblks) && q.NoPlaceIn(h, nblks) && (needed == 1 ==> !bh.hdrs[h].mapped)
      }
  {
    var avail := bh.hdrs[h].nblks;
    var last := FindPlace(bh.blackLists, h, avail - needed, Effective(needed, ignoreOffPage));
    if avail - (last - h) >= needed {
      return TakeAt(last, false);
    } else if needed > bh.blLimit && avail - needed > bh.blLimit {
      return TakeAt(h, true);
    } else if avail == last - h && needed == 1 && bh.hdrs[h].mapped {
      return MaybeDrop;
    }
    return Skip;
  }

  /** What an allocation may have done to the blocks in use: given up some black-listed ones, and taken one. */
  ghost predicate UsedOutcome(before: map<nat, Hdr>, after: map<nat, Hdr>, drops: set<nat>, r: nat, sz: nat, kind: M.Kind) {
    && drops !! before.Keys
    && if r == 0 then after == before + GivenUp(drops)
       else r !in before && r !in drops && after == (before + GivenUp(drops))[r := Used(sz, kind)]
  }

  /** What it has done to the heap, links aside: no other free block has changed. */
  ghost predicate Outcome(before: Headers, after: Headers, drops: set<nat>, r: nat, sz: nat, kind: M.Kind) {
    && UsedOutcome(UsedOf(before), UsedOf(after), drops, r, sz, kind)
    && if r == 0 then SameBlocks(before + GivenUp(drops), after)
       else exists h :: TakenOut(before + GivenUp(drops), after, h, r, sz, kind)
  }

  ghost predicate AllBlack(bl: BL.Lists, drops: set<nat>)
    requires bl.Valid()
  {
    forall d :: d in drops ==> bl.BlackListed(d, 1)
  }

  lemma OutcomeStarts(before: Headers, sz: nat, kind: M.Kind)
    ensures Outcome(before, before, {}, 0, sz, kind)
  {
    assert before + GivenUp({}) == before;
    assert UsedOf(before) + GivenUp({}) == UsedOf(before);
  }

  lemma OutcomeDrops(before: Headers, m: Headers, after: Headers, drops: set<nat>, more: set<nat>, r: nat, sz: nat, kind: M.Kind)
    requires Outcome(before, m, drops, 0, sz, kind) && Outcome(m, after, more, r, sz, kind)
    ensures Outcome(before, after, drops + more, r, sz, kind)
  {
    hide SameBlocks, TakenOut, UsedOf, GivenUp;
    UsedOutcomeDrops(UsedOf(before), UsedOf(m), UsedOf(after), drops, more, r, sz, kind);
    GivenUpSame(before + GivenUp(drops), m, more);
    GivenUpTwice(before, drops, more);
    if r == 0 {
      SameBlocksTrans(before + GivenUp(drops + more), m + GivenUp(more), after);
    } else {
      var h :| TakenOut(m + GivenUp(more), after, h, r, sz, kind);
      TakenOutSame(before + GivenUp(drops + more), m + GivenUp(more), after, h, r, sz, kind);
    }
  }

  lemma GivenUpTwice(before: Headers, drops: set<nat>, more: set<nat>)
    ensures before + GivenUp(drops) + GivenUp(more) == before + GivenUp(drops + more)
  {
  }

  lemma UsedOutcomeDrops(before: map<nat, Hdr>, m: map<nat, Hdr>, after: map<nat, Hdr>, drops: set<nat>, more: set<nat>,
                         r: nat, sz: nat, kind: M.Kind)
    requires UsedOutcome(before, m, drops, 0, sz, kind) && UsedOutcome(m, after, more, r, sz, kind)
    ensures UsedOutcome(before, after, drops + more, r, sz, kind)
  {
    assert before + GivenUp(drops) + GivenUp(more) == before + GivenUp(drops + more);
  }

  /** None of the first `k` blocks of list `l` suits, or the one at place `k` does. */
  ghost predicate NoneSuitsYet(q: Request, hdrs: Headers, l: seq<nat>, k: nat, maySplit: bool)
    requires q.Ok()
  {
    || (forall j :: 0 <= j < k && j < |l| ==> !q.Suits(l[j], NBlks(hdrs, l[j]), maySplit))
    || (k < |l| && q.Suits(l[k], NBlks(hdrs, l[k]), maySplit))
  }

  /** No free block on list `n` suits. */
  ghost predicate Exhausted(q: Request, hdrs: Headers, n: nat, maySplit: bool)
    requires q.Ok()
  {
    forall b :: b in hdrs && hdrs[b].Free? && FlIndex(hdrs[b].nblks) == n ==> !q.Suits(b, hdrs[b].nblks, maySplit)
  }

  /** The request has been served from free block `from`. */
  ghost predicate Chosen(q: Request, before: Headers, after: Headers, from: nat, r: nat, punted: bool, sz: nat, maySplit: bool)
    requires q.Ok()
  {
    && TakenOut(before, after, from, r, sz, q.kind) && Fits(before, from, q.needed, maySplit)
    && q.Places(from, NBlks(before, from), r, punted)
  }

  /** Dropping a block that does not suit does not hide one that does. */
  lemma DropKeepsNone(q: Request, hdrs: Headers, z: Headers, l: seq<nat>, k: nat, gone: set<nat>, maySplit: bool)
    requires q.Ok() && k < |l| && NoneSuitsYet(q, hdrs, l, k, maySplit) && !q.Suits(l[k], NBlks(hdrs, l[k]), maySplit)
    requires SameBlocks(hdrs + GivenUp(gone), z) && forall b :: b in Without(l, k) ==> b in z && z[b].Free?
    ensures NoneSuitsYet(q, z, Without(l, k), k, maySplit)
  {
    hide q.Suits;
    forall j | 0 <= j < k && j < |Without(l, k)| ensures !q.Suits(Without(l, k)[j], NBlks(z, Without(l, k)[j]), maySplit) {
      assert Without(l, k)[j] == l[j] && l[j] in Without(l, k);
      assert NBlks(z, l[j]) == NBlks(hdrs, l[j]);
    }
  }

  lemma PassKeepsNone(q: Request, hdrs: Headers, l: seq<nat>, k: nat, maySplit: bool)
    requires q.Ok() && k < |l| && NoneSuitsYet(q, hdrs, l, k, maySplit)
    requires q.Suits(l[k], NBlks(hdrs, l[k]), maySplit) ==> maySplit && NextFits(hdrs, q.bl, l, k, q.needed)
    ensures NoneSuitsYet(q, hdrs, l, k + 1, maySplit)
  {
    hide q.Suits;
    if q.Suits(l[k], NBlks(hdrs, l[k]), maySplit) {
      NextSuits(q, hdrs, l, k);
    }
  }

  /** At its end the search has seen all free blocks of the size class. */
  lemma SearchEnds(q: Request, bh: BlockHeap, n: nat, maySplit: bool)
    requires q.Ok() && bh.Valid() && n < |bh.lists| && NoneSuitsYet(q, bh.hdrs, bh.lists[n], |bh.lists[n]|, maySplit)
    ensures Exhausted(q, bh.hdrs, n, maySplit)
  {
    hide ListsFit, Tiled, FreeCells, q.Suits, FlIndex;
    forall b | b in bh.hdrs && bh.hdrs[b].Free? && FlIndex(bh.hdrs[b].nblks) == n ensures !q.Suits(b, bh.hdrs[b].nblks, maySplit) {
      var k := bh.SomewhereOnList(b);
      assert bh.lists[n][k] == b;
    }
  }

  /** What does not suit still does not after more blocks have been dropped. */
  lemma StillExhausted(q: Request, hdrs: Headers, z: Headers, gone: set<nat>, n: nat, maySplit: bool)
    requires q.Ok() && Exhausted(q, hdrs, n, maySplit) && SameBlocks(hdrs + GivenUp(gone), z)
    ensures Exhausted(q, z, n, maySplit)
  {
    hide q.Suits;
  }

  lemma DroppedExhausted(q: Request, hdrs: Headers, gone: set<nat>, n: nat, maySplit: bool)
    requires q.Ok() && Exhausted(q, hdrs, n, maySplit)
    ensures Exhausted(q, hdrs + GivenUp(gone), n, maySplit)
  {
    SameAsItself(hdrs + GivenUp(gone));
    StillExhausted(q, hdrs, hdrs + GivenUp(gone), gone, n, maySplit);
  }

  /** Blocks dropped before the choice do not matter to it. */
  lemma ChosenLater(q: Request, before: Headers, m: Headers, after: Headers, drops: set<nat>, more: set<nat>,
                    from: nat, r: nat, punted: bool, sz: nat, maySplit: bool)
    requires q.Ok() && SameBlocks(before + GivenUp(drops), m)
    requires Chosen(q, m + GivenUp(more), after, from, r, punted, sz, maySplit)
    ensures Chosen(q, before + GivenUp(drops + more), after, from, r, punted, sz, maySplit)
    ensures NBlks(before + GivenUp(drops + more), from) == NBlks(m + GivenUp(more), from)
  {
    hide TakenOut, q.Places, SameBlocks;
    GivenUpSame(before + GivenUp(drops), m, more);
    GivenUpTwice(before, drops, more);
    TakenOutSame(before + GivenUp(drops + more), m + GivenUp(more), after, from, r, sz, q.kind);
    SameBlocksOnly(before + GivenUp(drops + more), m + GivenUp(more), from, true);
  }

  /** The static counter of black-listed blocks: every fourth is dropped, unless leaks are looked for. */
  method CountBlackListed(bh: BlockHeap, findLeak: bool) returns (drop: bool)
    modifies bh`dropCount
    ensures bh.dropCount == if findLeak then old(bh.dropCount) else (old(bh.dropCount) + 1) % 0x1_0000_0000
    ensures drop <==> !findLeak && bh.dropCount % 4 == 0
  {
    drop := false;
    if !findLeak {
      bh.dropCount := (bh.dropCount + 1) % 0x1_0000_0000;
      drop := bh.dropCount % 4 == 0;
    }
  }

  lemma OutcomeTakes(before: Headers, m: Headers, after: Headers, drops: set<nat>, h: nat, at: nat, sz: nat, kind: M.Kind)
    requires Outcome(before, m, drops, 0, sz, kind) && TakenOut(m, after, h, at, sz, kind) && at != 0
    requires at !in UsedOf(m) && UsedOf(after) == UsedOf(m)[at := Used(sz, kind)]
    ensures Outcome(before, after, drops, at, sz, kind)
  {
    hide SameBlocks, TakenOut, UsedOf, GivenUp;
    TakenOutSame(before + GivenUp(drops), m, after, h, at, sz, kind);
    InUseOrGivenUp(UsedOf(before), drops, at);
  }

  lemma InUseOrGivenUp(used: map<nat, Hdr>, drops: set<nat>, at: nat)
    ensures at !in used + GivenUp(drops) ==> at !in used && at !in drops
  {
  }

  /** The search is at the `k`-th block of list `n`. */
  ghost predicate Searching(bh: BlockHeap, hbp: nat, n: nat, k: nat)
    reads bh`hdrs, bh`heads, bh`freeBlks, bh`lists, bh`home, bh`owner, bh`heapSize, bh`largeFree, bh`blackLists
  {
    && bh.Valid() && n < |bh.lists| && k <= |bh.lists[n]|
    && hbp == At(bh.lists[n], k) && (hbp == 0 <==> k == |bh.lists[n]|)
  }

  lemma SearchStarts(bh: BlockHeap, n: nat)
    requires bh.Valid() && n <= N_HBLK_FLS
    ensures bh.blackLists.Valid() && n < |bh.heads| && Searching(bh, bh.heads[n], n, 0) && |bh.lists| == N_HBLK_FLS + 1
  {
    bh.HeadFacts(n);
  }

  lemma SearchGoesOn(bh: BlockHeap, hbp: nat, n: nat, k: nat)
    requires Searching(bh, hbp, n, k) && hbp != 0
    ensures bh.Fit() && bh.blackLists.Valid() && bh.OnList(hbp, n, k)
    ensures hbp in bh.hdrs && bh.hdrs[hbp].Free? && Searching(bh, bh.hdrs[hbp].next, n, k + 1)
    ensures bh.hdrs[hbp].prev == At(bh.lists[n], k - 1) && (bh.hdrs[hbp].prev == 0 <==> k == 0)
  {
    hide ListsFit, Tiled, Homed, NoneMergeable, AllMapped;
    bh.OnListFacts(hbp, n, k);
  }

  /** The current block is dropped; the search goes on behind `prev`, where the next block now is. */
  method DropHere(bh: BlockHeap, hbp: nat, n: nat, ghost k: nat, ghost drops: set<nat>, ghost hdrs0: Headers,
                  ghost sz: nat, ghost kind: M.Kind)
      returns (prev: nat, ghost more: set<nat>)
    requires Searching(bh, hbp, n, k) && hbp != 0
    requires AllBlack(bh.blackLists, Cells(hbp, NBlks(bh.hdrs, hbp)))
    requires Outcome(hdrs0, bh.hdrs, drops, 0, sz, kind) && AllBlack(bh.blackLists, drops)
    modifies bh`hdrs, bh`heads, bh`freeBlks, bh`lists, bh`home, bh`owner, bh`largeFree, bh`dropped
    ensures bh.Valid() && bh.owner.Keys == old(bh.owner.Keys) && (prev == 0 <==> k == 0)
    ensures old(bh.OnList(hbp, n, k)) && bh.lists == old(bh.lists[n := Without(bh.lists[n], k)])
    ensures Thinner(bh.freeBlks, old(bh.freeBlks))
    ensures prev != 0 ==> Searching(bh, prev, n, k - 1)
    ensures Outcome(hdrs0, bh.hdrs, more, 0, sz, kind) && AllBlack(bh.blackLists, more) && more != {}
    ensures SameBlocks(old(bh.hdrs) + GivenUp(Cells(hbp, old(NBlks(bh.hdrs, hbp)))), bh.hdrs)
  {
    hide bh.Valid, UsedOf, Outcome, GivenUp, Without, SameBlocks, AllBlack, Thinner;
    SearchGoesOn(bh, hbp, n, k);
    prev := bh.hdrs[hbp].prev;
    ghost var hdrs1, gone := bh.hdrs, Cells(hbp, NBlks(bh.hdrs, hbp));
    ghost var l, owner1 := bh.lists[n], bh.owner;
    ValidIsTiled(bh);
    DropKeepsPlace(l, k);
    DropBlock(bh, hbp, n, k);
    DropIsOutcome(hdrs1, bh.hdrs, gone, sz, kind);
    OutcomeDrops(hdrs0, hdrs1, bh.hdrs, drops, gone, 0, sz, kind);
    more := drops + gone;
    BothBlack(bh.blackLists, drops, gone);
    assert hbp in gone by {
      FreeIsPositive(hdrs1, owner1, hbp);
    }
    if prev != 0 {
      SearchAt(bh, n, k - 1);
    }
  }

  lemma ValidIsTiled(bh: BlockHeap)
    requires bh.Valid()
    ensures Tiled(bh.hdrs, bh.owner) && AllMapped(bh.hdrs)
  {
  }

  lemma FreeIsPositive(hdrs: Headers, owner: map<nat, nat>, h: nat)
    requires Tiled(hdrs, owner) && h in hdrs && hdrs[h].Free?
    ensures NBlks(hdrs, h) >= 1 && h in Cells(h, NBlks(hdrs, h))
  {
    SizesPositive(hdrs, owner);
  }

  lemma DropKeepsPlace(l: seq<nat>, k: nat)
    requires k < |l|
    ensures |Without(l, k)| == |l| - 1 && (k > 0 ==> Without(l, k)[k - 1] == l[k - 1])
  {
  }

  lemma SearchAt(bh: BlockHeap, n: nat, k: nat)
    requires bh.Valid() && n < |bh.lists| && k < |bh.lists[n]|
    ensures Searching(bh, bh.lists[n][k], n, k)
  {
    bh.OnListFacts(bh.lists[n][k], n, k);
  }

  lemma DropIsOutcome(before: Headers, after: Headers, gone: set<nat>, sz: nat, kind: M.Kind)
    requires gone !! UsedOf(before).Keys && UsedOf(after) == UsedOf(before) + GivenUp(gone)
    requires SameBlocks(before + GivenUp(gone), after)
    ensures Outcome(before, after, gone, 0, sz, kind)
  {
  }

  /** The current block is taken. */
  method TakeHere(bh: BlockHeap, hbp: nat, at: nat, n: nat, ghost k: nat, ghost drops: set<nat>, ghost hdrs0: Headers,
                  sz: nat, kind: M.Kind)
    requires Searching(bh, hbp, n, k) && hbp != 0 && sz > 0
    requires hbp <= at && at + ObjSzToBlocks(sz) <= hbp + NBlks(bh.hdrs, hbp)
    requires Outcome(hdrs0, bh.hdrs, drops, 0, sz, kind)
    modifies bh`hdrs, bh`heads, bh`freeBlks, bh`lists, bh`home, bh`owner, bh`largeFree
    ensures bh.Valid() && bh.owner.Keys == old(bh.owner.Keys) && at != 0
    ensures Outcome(hdrs0, bh.hdrs, drops, at, sz, kind) && TakenOut(old(bh.hdrs), bh.hdrs, hbp, at, sz, kind)
  {
    hide bh.Valid, UsedOf, Outcome;
    SearchGoesOn(bh, hbp, n, k);
    ghost var hdrs1 := bh.hdrs;
    Take(bh, hbp, at, sz, kind, n, k);
    OutcomeTakes(hdrs0, hdrs1, bh.hdrs, drops, hbp, at, sz, kind);
  }

  /** What has become of the current block: it has been taken, dropped, or passed over. */
  datatype Step = Taken(at: nat, punt: bool) | Dropped(prev: nat) | PassedOver

  /** The body of the search loop in `GC_allochblk_nth`. */
  method TryHere(bh: BlockHeap, hbp: nat, sz: nat, kind: M.Kind, ignoreOffPage: bool, n: nat, maySplit: bool, findLeak: bool,
                 ghost k: nat, ghost drops: set<nat>, ghost hdrs0: Headers)
      returns (s: Step, ghost more: set<nat>)
    requires Searching(bh, hbp, n, k) && hbp != 0 && sz > 0
    requires Outcome(hdrs0, bh.hdrs, drops, 0, sz, kind) && AllBlack(bh.blackLists, drops)
    requires NoneSuitsYet(Asked(bh, ObjSzToBlocks(sz), kind, ignoreOffPage), bh.hdrs, bh.lists[n], k, maySplit)
    modifies bh`hdrs, bh`heads, bh`freeBlks, bh`lists, bh`home, bh`owner, bh`largeFree, bh`dropped, bh`dropCount
    ensures bh.Valid() && bh.owner.Keys == old(bh.owner.Keys) && old(bh.OnList(hbp, n, k))
    ensures Outcome(hdrs0, bh.hdrs, more, if s.Taken? then s.at else 0, sz, kind) && AllBlack(bh.blackLists, more)
    ensures var q := Asked(bh, ObjSzToBlocks(sz), kind, ignoreOffPage);
      match s {
        case Taken(at, punt) =>
          && at != 0 && more == drops && Chosen(q, old(bh.hdrs), bh.hdrs, hbp, at, punt, sz, maySplit)
          && !(maySplit && NextFits(old(bh.hdrs), q.bl, old(bh.lists[n]), k, q.needed))
        case Dropped(prev) =>
          && q.needed == 1 && !Exempt(kind, 1) && !findLeak && bh.dropCount % 4 == 0 && more != {}
          && bh.lists == old(bh.lists[n := Without(bh.lists[n], k)]) && Thinner(bh.freeBlks, old(bh.freeBlks))
          && (prev == 0 <==> k == 0) && (prev != 0 ==> Searching(bh, prev, n, k - 1))
          && NoneSuitsYet(q, bh.hdrs, bh.lists[n], k, maySplit)
        case PassedOver =>
          && bh.hdrs == old(bh.hdrs) && bh.lists == old(bh.lists) && bh.freeBlks == old(bh.freeBlks) && more == drops
          && Searching(bh, hbp, n, k) && NoneSuitsYet(q, bh.hdrs, bh.lists[n], k + 1, maySplit)
          && (q.needed == 1 && Fits(bh.hdrs, hbp, 1, maySplit) && !NextFits(bh.hdrs, q.bl, bh.lists[n], k, 1) ==>
                findLeak || bh.dropCount % 4 != 0)
      }
  {
    hide bh.Valid, UsedOf, Outcome, AllBlack, NoPlace, NoneSuitsYet, TakenOut, Exempt, GivenUp, Cells, SameBlocks;
    more := drops;
    SearchGoesOn(bh, hbp, n, k);
    ValidIsTiled(bh);
    var needed := ObjSzToBlocks(sz);
    ghost var q := Asked(bh, needed, kind, ignoreOffPage);
    ghost var hdrs1, l := bh.hdrs, bh.lists[n];
    var c := Consider(bh, hbp, needed, kind, ignoreOffPage, n, maySplit, k);
    match c {
      case TakeAt(at, punt) =>
        TakeHere(bh, hbp, at, n, k, drops, hdrs0, sz, kind);
        s := Taken(at, punt);
      case MaybeDrop =>
        var drop := CountBlackListed(bh, findLeak);
        if drop {
          var prev;
          prev, more := DropHere(bh, hbp, n, k, drops, hdrs0, sz, kind);
          ListsAreFree(bh, n);
          DropKeepsNone(q, hdrs1, bh.hdrs, l, k, Cells(hbp, NBlks(hdrs1, hbp)), maySplit);
          s := Dropped(prev);
        } else {
          PassKeepsNone(q, hdrs1, l, k, maySplit);
          s := PassedOver;
        }
      case Skip =>
        PassKeepsNone(q, hdrs1, l, k, maySplit);
        s := PassedOver;
    }
  }

  lemma ListsAreFree(bh: BlockHeap, n: nat)
    requires bh.Valid() && n < |bh.lists|
    ensures forall b :: b in bh.lists[n] ==> b in bh.hdrs && bh.hdrs[b].Free?
  {
    hide Tiled, Homed, NoneMergeable, AllMapped;
    forall b | b in bh.lists[n] ensures b in bh.hdrs && bh.hdrs[b].Free? {
      var k :| 0 <= k < |bh.lists[n]| && bh.lists[n][k] == b;
      bh.OnListFacts(b, n, k);
    }
  }

  /**
   `GC_allochblk_nth`: a block for objects of `sz` bytes from list `n`, or 0. `drops` are the
   blocks given up on the way; the block found is part of free block `from`; `punted` says that
   the black lists were disregarded in the end.
   */
  method AllocNth(bh: BlockHeap, sz: nat, kind: M.Kind, ignoreOffPage: bool, n: nat, maySplit: bool, findLeak: bool)
      returns (r: nat, ghost drops: set<nat>, ghost punted: bool, ghost from: nat)
    requires bh.Valid() && n <= N_HBLK_FLS && sz > 0
    modifies bh`hdrs, bh`heads, bh`freeBlks, bh`lists, bh`home, bh`owner, bh`largeFree, bh`dropped, bh`dropCount
    ensures bh.Valid() && bh.owner.Keys == old(bh.owner.Keys)
    ensures Outcome(old(bh.hdrs), bh.hdrs, drops, r, sz, kind) && AllBlack(bh.blackLists, drops)
    ensures drops != {} ==> ObjSzToBlocks(sz) == 1 && !Exempt(kind, 1) && !findLeak
    ensures var q, before := Asked(bh, ObjSzToBlocks(sz), kind, ignoreOffPage), old(bh.hdrs) + GivenUp(drops);
      if r == 0 then Exhausted(q, bh.hdrs, n, maySplit) && !punted
      else Chosen(q, before, bh.hdrs, from, r, punted, sz, maySplit) && FlIndex(NBlks(before, from)) == n
    ensures r == 0 ==> Thinner(bh.freeBlks, old(bh.freeBlks))
    ensures r == 0 && drops == {} ==> bh.hdrs == old(bh.hdrs) && bh.lists == old(bh.lists) && bh.freeBlks == old(bh.freeBlks)
    decreases if n < |bh.lists| then |bh.lists[n]| else 0
  {
    hide bh.Valid, UsedOf, Outcome, AllBlack, NoPlace, Exempt, NoneSuitsYet, Exhausted, Thinner, GivenUp, Without, TakenOut, FlIndex;
    SearchStarts(bh, n);
    var hbp := bh.heads[n];
    ghost var k := 0;
    drops, punted, from := {}, false, 0;
    ghost var q := Asked(bh, ObjSzToBlocks(sz), kind, ignoreOffPage);
    ghost var hdrs0, size0 := bh.hdrs, |bh.lists[n]|;
    OutcomeStarts(hdrs0, sz, kind);
    NoneIsBlack(bh.blackLists);
    NoneSuitsAtStart(q, bh.hdrs, bh.lists[n], maySplit);
    ThinnerTrans(bh.freeBlks, bh.freeBlks, bh.freeBlks);
    while hbp != 0
      invariant Searching(bh, hbp, n, k) && bh.owner.Keys == old(bh.owner.Keys)
      invariant Outcome(hdrs0, bh.hdrs, drops, 0, sz, kind) && AllBlack(bh.blackLists, drops)
      invariant drops != {} ==> ObjSzToBlocks(sz) == 1 && !Exempt(kind, 1) && !findLeak
      invariant |bh.lists[n]| <= size0 && Thinner(bh.freeBlks, old(bh.freeBlks))
      invariant drops == {} ==> bh.hdrs == hdrs0 && bh.lists == old(bh.lists) && bh.freeBlks == old(bh.freeBlks)
      invariant NoneSuitsYet(q, bh.hdrs, bh.lists[n], k, maySplit)
      decreases |bh.lists[n]| - k
    {
      SearchGoesOn(bh, hbp, n, k);
      ListedBySize(bh, hbp, n, k);
      DropKeepsPlace(bh.lists[n], k);
      ghost var hdrs1, free1, gone := bh.hdrs, bh.freeBlks, drops;
      var s;
      s, drops := TryHere(bh, hbp, sz, kind, ignoreOffPage, n, maySplit, findLeak, k, drops, hdrs0);
      match s {
        case Taken(at, punt) =>
          FailedIsSame(hdrs0, hdrs1, drops, sz, kind);
          ChosenFromList(q, hdrs0, hdrs1, bh.hdrs, drops, hbp, at, punt, sz, maySplit);
          return at, drops, punt, hbp;
        case Dropped(prev) =>
          ThinnerTrans(bh.freeBlks, free1, old(bh.freeBlks));
          if prev == 0 {
            ghost var more, hdrs2, free2 := {}, bh.hdrs, bh.freeBlks;
            r, more, punted, from := AllocNth(bh, sz, kind, ignoreOffPage, n, maySplit, findLeak);
            OutcomeDrops(hdrs0, hdrs2, bh.hdrs, drops, more, r, sz, kind);
            BothBlack(bh.blackLists, drops, more);
            if r == 0 {
              ThinnerTrans(bh.freeBlks, free2, old(bh.freeBlks));
            } else {
              FailedIsSame(hdrs0, hdrs2, drops, sz, kind);
              ChosenLater(q, hdrs0, hdrs2, bh.hdrs, drops, more, from, r, punted, sz, maySplit);
            }
            drops := drops + more;
            return;
          }
          SearchGoesOn(bh, prev, n, k - 1);
          hbp := bh.hdrs[prev].next;
        case PassedOver =>
          hbp := bh.hdrs[hbp].next;
          k := k + 1;
      }
    }
    SearchEnds(q, bh, n, maySplit);
    return 0, drops, false, 0;
  }

  /** A block is taken out of a block on the list that is searched. */
  lemma ChosenFromList(q: Request, before: Headers, m: Headers, after: Headers, drops: set<nat>,
                       from: nat, r: nat, punted: bool, sz: nat, maySplit: bool)
    requires q.Ok() && SameBlocks(before + GivenUp(drops), m) && Chosen(q, m, after, from, r, punted, sz, maySplit)
    ensures Chosen(q, before + GivenUp(drops), after, from, r, punted, sz, maySplit)
    ensures NBlks(before + GivenUp(drops), from) == NBlks(m, from)
  {
    hide TakenOut, q.Places, SameBlocks;
    TakenOutSame(before + GivenUp(drops), m, after, from, r, sz, q.kind);
    SameBlocksOnly(before + GivenUp(drops), m, from, true);
  }

  lemma FailedIsSame(before: Headers, after: Headers, drops: set<nat>, sz: nat, kind: M.Kind)
    requires Outcome(before, after, drops, 0, sz, kind)
    ensures SameBlocks(before + GivenUp(drops), after)
  {
  }

  /** A listed block is on the list for its size. */
  lemma ListedBySize(bh: BlockHeap, b: nat, n: nat, k: nat)
    requires bh.Valid() && bh.OnList(b, n, k)
    ensures FlIndex(NBlks(bh.hdrs, b)) == n
  {
    hide ListsFit, Tiled, NoneMergeable, AllMapped;
    bh.OnListFacts(b, n, k);
  }

  lemma NoneSuitsAtStart(q: Request, hdrs: Headers, l: seq<nat>, maySplit: bool)
    requires q.Ok()
    ensures NoneSuitsYet(q, hdrs, l, 0, maySplit)
  {
  }

  lemma ThinnerTrans(a: seq<nat>, b: seq<nat>, c: seq<nat>)
    ensures Thinner(a, a)
    ensures Thinner(a, b) && Thinner(b, c) ==> Thinner(a, c)
  {
  }

  lemma NoneIsBlack(bl: BL.Lists)
    requires bl.Valid()
    ensures AllBlack(bl, {})
  {
  }

  lemma BothBlack(bl: BL.Lists, a: set<nat>, b: set<nat>)
    requires bl.Valid() && AllBlack(bl, a) && AllBlack(bl, b)
    ensures AllBlack(bl, a + b)
  {
  }

  // -----------------------------------------------------------------------------------
  // Searching all lists
  // -----------------------------------------------------------------------------------

  const WORD_RANGE: nat := 0x1_0000_0000_0000_0000

  /** `OBJ_SZ_TO_BLOCKS_CHECKED`: the sum saturates. */
  function ObjSzToBlocksChecked(sz: nat): nat {
    (if sz + HBLKSIZE - 1 < WORD_RANGE then sz + HBLKSIZE - 1 else WORD_RANGE - 1) / HBLKSIZE
  }

  /**
   How much of the heap may be split: all of it, nothing, or as long as enough large blocks are
   left to cover the most that large objects have ever taken.
   */
  datatype SplitAdvice = All | Nothing | IfEnoughLeft(largeAllocd: nat, maxLargeAllocd: nat)

  /** Free bytes on the lists from `n` on. */
  function FreeFrom(freeBlks: seq<nat>, n: nat): nat
    decreases |freeBlks| - n
  {
    if n >= |freeBlks| then 0 else freeBlks[n] + FreeFrom(freeBlks, n + 1)
  }

  /** `GC_enough_large_bytes_left`: the largest `n` such that the lists from `n` on hold enough, or 0. */
  method EnoughLargeBytesLeft(bh: BlockHeap, largeAllocd: nat, maxLargeAllocd: nat) returns (n: nat)
    requires |bh.freeBlks| == N_HBLK_FLS + 1
    ensures n <= N_HBLK_FLS
    ensures forall m :: n < m <= N_HBLK_FLS ==> largeAllocd + FreeFrom(bh.freeBlks, m) < maxLargeAllocd
    ensures n > 0 ==> largeAllocd + FreeFrom(bh.freeBlks, n) >= maxLargeAllocd
  {
    n := N_HBLK_FLS;
    var bytes := largeAllocd + bh.freeBlks[n];
    while n > 0 && bytes < maxLargeAllocd
      invariant n <= N_HBLK_FLS && bytes == largeAllocd + FreeFrom(bh.freeBlks, n)
      invariant forall m :: n < m <= N_HBLK_FLS ==> largeAllocd + FreeFrom(bh.freeBlks, m) < maxLargeAllocd
    {
      n := n - 1;
      bytes := bytes + bh.freeBlks[n];
    }
  }

  /** No free block on lists `first` to `last` suits, even if it may be split. */
  ghost predicate AllExhausted(q: Request, hdrs: Headers, first: nat, last: int)
    requires q.Ok()
  {
    forall n: nat :: first <= n <= last ==> Exhausted(q, hdrs, n, true)
  }

  lemma StillAllExhausted(q: Request, hdrs: Headers, z: Headers, gone: set<nat>, first: nat, last: int)
    requires q.Ok() && AllExhausted(q, hdrs, first, last)
    ensures AllExhausted(q, hdrs + GivenUp(gone), first, last)
    ensures SameBlocks(hdrs + GivenUp(gone), z) ==> AllExhausted(q, z, first, last)
  {
    hide Exhausted, SameBlocks;
    forall n: nat | first <= n <= last
      ensures Exhausted(q, hdrs + GivenUp(gone), n, true) && (SameBlocks(hdrs + GivenUp(gone), z) ==> Exhausted(q, z, n, true))
    {
      DroppedExhausted(q, hdrs, gone, n, true);
      if SameBlocks(hdrs + GivenUp(gone), z) {
        StillExhausted(q, hdrs, z, gone, n, true);
      }
    }
  }

  lemma ExhaustedAfterDrops(q: Request, before: Headers, m: Headers, drops: set<nat>, more: set<nat>, n: nat, maySplit: bool)
    requires q.Ok() && SameBlocks(before + GivenUp(drops), m) && Exhausted(q, m + GivenUp(more), n, maySplit)
    ensures Exhausted(q, before + GivenUp(drops + more), n, maySplit)
  {
    hide q.Suits;
    GivenUpTwice(before, drops, more);
    GivenUpSame(before + GivenUp(drops), m, more);
    SameBlocksExhausted(q, before + GivenUp(drops + more), m + GivenUp(more), n, maySplit);
  }

  lemma SameBlocksExhausted(q: Request, hdrs: Headers, z: Headers, n: nat, maySplit: bool)
    requires q.Ok() && SameBlocks(hdrs, z) && Exhausted(q, z, n, maySplit)
    ensures Exhausted(q, hdrs, n, maySplit)
  {
    hide q.Suits;
  }

  lemma AllExhaustedAfterDrops(q: Request, before: Headers, m: Headers, drops: set<nat>, more: set<nat>, first: nat, last: int)
    requires q.Ok() && SameBlocks(before + GivenUp(drops), m) && AllExhausted(q, m + GivenUp(more), first, last)
    ensures AllExhausted(q, before + GivenUp(drops + more), first, last)
  {
    hide Exhausted, SameBlocks;
    forall n: nat | first <= n <= last ensures Exhausted(q, before + GivenUp(drops + more), n, true) {
      ExhaustedAfterDrops(q, before, m, drops, more, n, true);
    }
  }

  /** The loop of `GC_allochblk`: lists `first` to `last`, whose blocks may be split. */
  method AllocFrom(bh: BlockHeap, sz: nat, kind: M.Kind, ignoreOffPage: bool, first: nat, last: nat, findLeak: bool)
      returns (r: nat, ghost drops: set<nat>, ghost punted: bool, ghost from: nat)
    requires bh.Valid() && last <= N_HBLK_FLS && sz > 0
    modifies bh`hdrs, bh`heads, bh`freeBlks, bh`lists, bh`home, bh`owner, bh`largeFree, bh`dropped, bh`dropCount
    ensures bh.Valid() && bh.owner.Keys == old(bh.owner.Keys)
    ensures Outcome(old(bh.hdrs), bh.hdrs, drops, r, sz, kind) && AllBlack(bh.blackLists, drops)
    ensures drops != {} ==> ObjSzToBlocks(sz) == 1 && !Exempt(kind, 1) && !findLeak
    ensures var q, before := Asked(bh, ObjSzToBlocks(sz), kind, ignoreOffPage), old(bh.hdrs) + GivenUp(drops);
      if r == 0 then AllExhausted(q, bh.hdrs, first, last) && !punted
      else
        && Chosen(q, before, bh.hdrs, from, r, punted, sz, true)
        && var n := FlIndex(NBlks(before, from)); first <= n <= last && AllExhausted(q, before, first, n - 1)
    ensures r == 0 ==> Thinner(bh.freeBlks, old(bh.freeBlks))
    ensures r == 0 && drops == {} ==> bh.hdrs == old(bh.hdrs) && bh.lists == old(bh.lists) && bh.freeBlks == old(bh.freeBlks)
  {
    hide bh.Valid, UsedOf, Outcome, AllBlack, NoPlace, Exempt, Exhausted, Thinner, GivenUp, FlIndex, Chosen, SameBlocks;
    ValidLists(bh);
    r, drops, punted, from := 0, {}, false, 0;
    ghost var q := Asked(bh, ObjSzToBlocks(sz), kind, ignoreOffPage);
    ghost var hdrs0 := bh.hdrs;
    OutcomeStarts(hdrs0, sz, kind);
    NoneIsBlack(bh.blackLists);
    ThinnerTrans(bh.freeBlks, bh.freeBlks, bh.freeBlks);
    var n := first;
    while n <= last
      invariant first <= n && bh.Valid() && bh.owner.Keys == old(bh.owner.Keys) && !punted
      invariant Outcome(hdrs0, bh.hdrs, drops, 0, sz, kind) && AllBlack(bh.blackLists, drops)
      invariant drops != {} ==> ObjSzToBlocks(sz) == 1 && !Exempt(kind, 1) && !findLeak
      invariant AllExhausted(q, bh.hdrs, first, n - 1) && Thinner(bh.freeBlks, old(bh.freeBlks))
      invariant drops == {} ==> bh.hdrs == hdrs0 && bh.lists == old(bh.lists) && bh.freeBlks == old(bh.freeBlks)
      decreases last + 1 - n
    {
      ghost var more, hdrs1, free1 := {}, bh.hdrs, bh.freeBlks;
      r, more, punted, from := AllocNth(bh, sz, kind, ignoreOffPage, n, true, findLeak);
      OutcomeDrops(hdrs0, hdrs1, bh.hdrs, drops, more, r, sz, kind);
      BothBlack(bh.blackLists, drops, more);
      StillAllExhausted(q, hdrs1, bh.hdrs, more, first, n - 1);
      if r != 0 {
        FailedIsSame(hdrs0, hdrs1, drops, sz, kind);
        ChosenLater(q, hdrs0, hdrs1, bh.hdrs, drops, more, from, r, punted, sz, true);
        AllExhaustedAfterDrops(q, hdrs0, hdrs1, drops, more, first, n - 1);
        drops := drops + more;
        return;
      }
      FailedIsSame(hdrs1, bh.hdrs, more, sz, kind);
      ThinnerTrans(bh.freeBlks, free1, old(bh.freeBlks));
      drops := drops + more;
      n := n + 1;
    }
  }

  lemma ValidLists(bh: BlockHeap)
    requires bh.Valid()
    ensures bh.blackLists.Valid() && |bh.lists| == |bh.freeBlks| == N_HBLK_FLS + 1
  {
  }

  /** What no list that is searched has, no list up to the last of them has. */
  lemma NoBlockFits(q: Request, hdrs: Headers, first: nat, last: int)
    requires q.Ok() && FlIndex(q.needed) <= first <= FlIndex(q.needed) + 1
    requires first > FlIndex(q.needed) ==> FlIndex(q.needed) < UNIQUE_THRESHOLD
    requires Exhausted(q, hdrs, FlIndex(q.needed), false) && AllExhausted(q, hdrs, first, last)
    ensures Unavailable(q, hdrs, last)
  {
    hide FlIndex, NoPlace, q.NoPlaceIn;
    forall b | b in hdrs && hdrs[b].Free?
      ensures !q.Suits(b, hdrs[b].nblks, false) && (FlIndex(hdrs[b].nblks) <= last ==> !q.Suits(b, hdrs[b].nblks, true))
    {
      var i := FlIndex(hdrs[b].nblks);
      FlIndexMonotone(q.needed, hdrs[b].nblks);
      FlIndexMonotone(hdrs[b].nblks, q.needed);
      if first <= i <= last {
        assert Exhausted(q, hdrs, i, true);
      }
    }
  }

  /** Up to which list blocks may be split, by what was on the lists before and is after a failure. */
  ghost predicate LimitIs(advice: SplitAdvice, limit: nat, before: seq<nat>, after: seq<nat>, failed: bool) {
    match advice {
      case All => limit == N_HBLK_FLS
      case Nothing => limit == 0
      case IfEnoughLeft(largeAllocd, maxLargeAllocd) =>
        && limit <= N_HBLK_FLS && (limit > 0 ==> largeAllocd + FreeFrom(before, limit) >= maxLargeAllocd)
        && (failed ==> forall m :: limit < m <= N_HBLK_FLS ==> largeAllocd + FreeFrom(after, m) < maxLargeAllocd)
    }
  }

  lemma {:induction false} ThinnerFrom(freeBlks: seq<nat>, before: seq<nat>, n: nat)
    requires Thinner(freeBlks, before)
    ensures FreeFrom(freeBlks, n) <= FreeFrom(before, n)
    decreases |before| - n
  {
    if n < |before| {
      ThinnerFrom(freeBlks, before, n + 1);
    }
  }

  lemma LimitStays(advice: SplitAdvice, limit: nat, before: seq<nat>, middle: seq<nat>, after: seq<nat>, failed: bool)
    requires LimitIs(advice, limit, middle, middle, true) && Thinner(middle, before) && (failed ==> Thinner(after, middle))
    ensures LimitIs(advice, limit, before, after, failed)
  {
    ThinnerFrom(middle, before, limit);
    if failed {
      forall m | limit < m <= N_HBLK_FLS ensures FreeFrom(after, m) <= FreeFrom(middle, m) {
        ThinnerFrom(after, middle, m);
      }
    }
  }

  /** The lists whose blocks may be split. */
  method SplitLimit(bh: BlockHeap, advice: SplitAdvice) returns (limit: nat)
    requires |bh.freeBlks| == N_HBLK_FLS + 1
    ensures limit <= N_HBLK_FLS && LimitIs(advice, limit, bh.freeBlks, bh.freeBlks, true)
  {
    match advice {
      case All => limit := N_HBLK_FLS;
      case Nothing => limit := 0;
      case IfEnoughLeft(largeAllocd, maxLargeAllocd) => limit := EnoughLargeBytesLeft(bh, largeAllocd, maxLargeAllocd);
    }
  }

  /** No free block fits exactly, and none on a list up to `limit` suits. */
  ghost predicate Unavailable(q: Request, hdrs: Headers, limit: int)
    requires q.Ok()
  {
    (forall n: nat :: Exhausted(q, hdrs, n, false)) && AllExhausted(q, hdrs, 0, limit)
  }

  /** A block of size `nblks` may be split: its list is within the limit, and there was nothing else. */
  ghost predicate Preferred(q: Request, hdrs: Headers, nblks: nat, limit: nat)
    requires q.Ok()
  {
    FlIndex(nblks) <= limit && Unavailable(q, hdrs, FlIndex(nblks) - 1)
  }

  /**
   The decision about a request, where `before` is the heap without the dropped blocks: it fails
   only if nothing suits that may be split, and a block is split only if nothing fits exactly.
   */
  ghost predicate Decided(q: Request, advice: SplitAdvice, before: Headers, after: Headers, freeBefore: seq<nat>,
                          freeAfter: seq<nat>, r: nat, punted: bool, from: nat, limit: nat, sz: nat)
    requires q.Ok()
  {
    if r == 0 then
      !punted && (q.needed < HALF ==> Unavailable(q, after, limit) && LimitIs(advice, limit, freeBefore, freeAfter, true))
    else
      && Chosen(q, before, after, from, r, punted, sz, true)
      && (NBlks(before, from) != q.needed ==>
            Preferred(q, before, NBlks(before, from), limit) && LimitIs(advice, limit, freeBefore, freeAfter, false))
  }

  lemma WholeHeapExhausted(q: Request, hdrs: Headers)
    requires q.Ok() && AllExhausted(q, hdrs, 0, N_HBLK_FLS)
    ensures forall b :: b in hdrs && hdrs[b].Free? ==> !q.Suits(b, hdrs[b].nblks, true)
  {
    hide q.Suits;
    forall b | b in hdrs && hdrs[b].Free? ensures !q.Suits(b, hdrs[b].nblks, true) {
      assert Exhausted(q, hdrs, FlIndex(hdrs[b].nblks), true);
    }
  }

  /** `GC_allochblk`. Blocks on lists up to `limit` may be split. */
  method AllocBlk(bh: BlockHeap, sz: nat, kind: M.Kind, ignoreOffPage: bool, advice: SplitAdvice, findLeak: bool)
      returns (r: nat, ghost drops: set<nat>, ghost punted: bool, ghost from: nat, ghost limit: nat)
    requires bh.Valid() && 0 < sz < WORD_RANGE
    modifies bh`hdrs, bh`heads, bh`freeBlks, bh`lists, bh`home, bh`owner, bh`largeFree, bh`dropped, bh`dropCount
    ensures bh.Valid() && bh.owner.Keys == old(bh.owner.Keys)
    ensures Outcome(old(bh.hdrs), bh.hdrs, drops, r, sz, kind) && AllBlack(bh.blackLists, drops)
    ensures drops != {} ==> ObjSzToBlocks(sz) == 1 && !Exempt(kind, 1) && !findLeak
    ensures Decided(Asked(bh, ObjSzToBlocks(sz), kind, ignoreOffPage), advice, old(bh.hdrs) + GivenUp(drops), bh.hdrs,
                    old(bh.freeBlks), bh.freeBlks, r, punted, from, limit, sz)
    ensures ObjSzToBlocks(sz) >= HALF ==> r == 0 && drops == {}
    ensures r == 0 && advice == All && ObjSzToBlocks(sz) < HALF ==>
              var q := Asked(bh, ObjSzToBlocks(sz), kind, ignoreOffPage);
              forall b :: b in bh.hdrs && bh.hdrs[b].Free? ==> !q.Suits(b, bh.hdrs[b].nblks, true)
  {
    hide bh.Valid, UsedOf, Outcome, AllBlack, NoPlace, Exempt, Exhausted, Thinner, GivenUp, FlIndex, SameBlocks;
    hide AllExhausted, TakenOut, FreeFrom;
    ValidLists(bh);
    ghost var q := Asked(bh, ObjSzToBlocks(sz), kind, ignoreOffPage);
    ghost var hdrs0, free0 := bh.hdrs, bh.freeBlks;
    limit := 0;
    var blocks := ObjSzToBlocksChecked(sz);
    if blocks >= HALF {
      OutcomeStarts(hdrs0, sz, kind);
      NoneIsBlack(bh.blackLists);
      return 0, {}, false, 0, 0;
    }
    assert blocks == ObjSzToBlocks(sz);
    var startList := FlIndex(blocks);
    r, drops, punted, from := AllocNth(bh, sz, kind, ignoreOffPage, startList, false, findLeak);
    if r != 0 {
      return;
    }
    ValidLists(bh);
    var splitLimit := SplitLimit(bh, advice);
    limit := splitLimit;
    if startList < UNIQUE_THRESHOLD {
      startList := startList + 1;
    }
    ghost var more, hdrs1, free1 := {}, bh.hdrs, bh.freeBlks;
    r, more, punted, from := AllocFrom(bh, sz, kind, ignoreOffPage, startList, splitLimit, findLeak);
    OutcomeDrops(hdrs0, hdrs1, bh.hdrs, drops, more, r, sz, kind);
    BothBlack(bh.blackLists, drops, more);
    LimitStays(advice, limit, free0, free1, bh.freeBlks, r == 0);
    if r == 0 {
      FailedIsSame(hdrs1, bh.hdrs, more, sz, kind);
      StillExhausted(q, hdrs1, bh.hdrs, more, FlIndex(blocks), false);
      NoBlockFits(q, bh.hdrs, startList, limit);
      if advice == All {
        WholeHeapExhausted(q, bh.hdrs);
      }
    } else {
      FailedIsSame(hdrs0, hdrs1, drops, sz, kind);
      ChosenLater(q, hdrs0, hdrs1, bh.hdrs, drops, more, from, r, punted, sz, true);
      ghost var z := hdrs0 + GivenUp(drops + more);
      ghost var n := FlIndex(NBlks(z, from));
      AllExhaustedAfterDrops(q, hdrs0, hdrs1, drops, more, startList, n - 1);
      DroppedExhausted(q, hdrs1, more, FlIndex(blocks), false);
      ExhaustedAfterDrops(q, hdrs0, hdrs1, drops, more, FlIndex(blocks), false);
      NoBlockFits(q, z, startList, n - 1);
    }
    drops := drops + more;
  }
}
