/**
 How the blocks of the heap lie: every address of the heap belongs to exactly one block, free or
 in use. Lemmas say how merging, splitting and retagging blocks keep it so.
 */
module HeapTiling {
  import opened FreeLists
  import M = MarkPhase

  /** `OBJ_SZ_TO_BLOCKS`. */
  function ObjSzToBlocks(sz: nat): nat {
    (sz + HBLKSIZE - 1) / HBLKSIZE
  }

  /** How many heap blocks a block occupies. */
  function BlkSize(h: Hdr): nat {
    match h
    case Free(nblks, _, _, _) => nblks
    case Used(sz, _) => ObjSzToBlocks(sz)
  }

  predicate InBlock(hdrs: Headers, b: nat, x: nat) {
    b in hdrs && b <= x < b + BlkSize(hdrs[b])
  }

  /** `owner` gives the block of each address of the heap. */
  ghost predicate Tiled(hdrs: Headers, owner: map<nat, nat>) {
    && (forall b :: b in hdrs ==> b >= 2 && BlkSize(hdrs[b]) >= 1)
    && (forall x :: x in owner ==> InBlock(hdrs, owner[x], x))
    && (forall b, x :: InBlock(hdrs, b, x) ==> x in owner && owner[x] == b)
  }

  predicate InRange(x: nat, b: nat, n: nat) {
    b <= x < b + n
  }

  /** The `n` addresses from `b` on. */
  ghost function Cells(b: nat, n: nat): set<nat> {
    set x: nat | x < b + n && InRange(x, b, n)
  }

  lemma {:induction false} CellsCount(b: nat, n: nat)
    ensures |Cells(b, n)| == n
    decreases n
  {
    if n > 0 {
      CellsCount(b, n - 1);
      assert Cells(b, n) == Cells(b, n - 1) + {b + n - 1};
    } else {
      assert Cells(b, n) == {};
    }
  }

  /** The addresses in free blocks. */
  ghost function FreeCells(hdrs: Headers, owner: map<nat, nat>): set<nat> {
    set x | x in owner && owner[x] in hdrs && hdrs[owner[x]].Free?
  }

  /** The blocks in use. */
  ghost function UsedOf(hdrs: Headers): map<nat, Hdr> {
    map b | b in hdrs && hdrs[b].Used? :: hdrs[b]
  }

  /** Whose block an address is after `[b, b + n)` has been given to block `b`. */
  ghost function Owned(owner: map<nat, nat>, b: nat, n: nat): map<nat, nat> {
    map x | x in owner.Keys + Cells(b, n) :: if b <= x < b + n then b else owner[x]
  }

  lemma SameBlocksTiled(hdrs: Headers, z: Headers, owner: map<nat, nat>)
    requires SameBlocks(hdrs, z) && Tiled(hdrs, owner)
    ensures Tiled(z, owner) && FreeCells(z, owner) == FreeCells(hdrs, owner) && UsedOf(z) == UsedOf(hdrs)
  {
    forall b, x | InBlock(z, b, x) ensures x in owner && owner[x] == b {
      assert InBlock(hdrs, b, x);
    }
  }

  /** The block after `b`, if it follows immediately. */
  predicate Follows(hdrs: Headers, b: nat, c: nat) {
    b in hdrs && c in hdrs && c == b + BlkSize(hdrs[b])
  }

  /** Free block `c` becomes part of free block `b`. */
  lemma MergeTiled(hdrs: Headers, owner: map<nat, nat>, b: nat, c: nat, m: Hdr)
    requires Tiled(hdrs, owner) && Follows(hdrs, b, c) && hdrs[b].Free? && hdrs[c].Free?
    requires m.Free? && m.nblks == hdrs[b].nblks + hdrs[c].nblks
    ensures var z := (hdrs - {c})[b := m]; var o := Owned(owner, b, m.nblks);
      && Tiled(z, o) && FreeCells(z, o) == FreeCells(hdrs, owner) && UsedOf(z) == UsedOf(hdrs) && o.Keys == owner.Keys
  {
    var z, o := (hdrs - {c})[b := m], Owned(owner, b, m.nblks);
    forall x | b <= x < b + m.nblks ensures x in owner && owner[x] in {b, c} {
      assert InBlock(hdrs, b, x) || InBlock(hdrs, c, x);
    }
    forall x | x in o ensures InBlock(z, o[x], x) {
      if !(b <= x < b + m.nblks) {
        assert InBlock(hdrs, owner[x], x);
      }
    }
    forall d, x | InBlock(z, d, x) ensures x in o && o[x] == d {
      if d != b {
        assert InBlock(hdrs, d, x);
      }
    }
  }

  /** Block `b` becomes blocks `b` and `n`, of the given kinds. */
  lemma SplitTiled(hdrs: Headers, owner: map<nat, nat>, b: nat, n: nat, first: Hdr, second: Hdr)
    requires Tiled(hdrs, owner) && b in hdrs && b < n < b + BlkSize(hdrs[b])
    requires hdrs[b].Free? && first.Free? && second.Free?
    requires first.nblks == n - b && second.nblks == BlkSize(hdrs[b]) - (n - b)
    ensures n !in hdrs
    ensures var z := hdrs[b := first][n := second]; var o := Owned(owner, n, second.nblks);
      && Tiled(z, o) && FreeCells(z, o) == FreeCells(hdrs, owner) && UsedOf(z) == UsedOf(hdrs) && o.Keys == owner.Keys
  {
    var z, o := hdrs[b := first][n := second], Owned(owner, n, second.nblks);
    assert InBlock(hdrs, b, n);
    if n in hdrs {
      assert InBlock(hdrs, n, n);
    }
    forall x | n <= x < n + second.nblks ensures x in owner && owner[x] == b {
      assert InBlock(hdrs, b, x);
    }
    forall x | x in o ensures InBlock(z, o[x], x) {
      assert InBlock(hdrs, owner[x], x);
    }
    forall d, x | InBlock(z, d, x) ensures x in o && o[x] == d {
      assert InBlock(hdrs, if d == n then b else d, x);
    }
  }

  /** A free block comes into use, or the other way round. */
  lemma RetagTiled(hdrs: Headers, owner: map<nat, nat>, b: nat, m: Hdr)
    requires Tiled(hdrs, owner) && b in hdrs && BlkSize(m) == BlkSize(hdrs[b])
    ensures var z := hdrs[b := m]; var c := Cells(b, BlkSize(m));
      && Tiled(z, owner) && c <= owner.Keys
      && (m.Free? ==> FreeCells(z, owner) == FreeCells(hdrs, owner) + c)
      && (m.Used? ==> FreeCells(z, owner) == FreeCells(hdrs, owner) - c)
      && (hdrs[b].Free? ==> c <= FreeCells(hdrs, owner))
      && (hdrs[b].Used? ==> c !! FreeCells(hdrs, owner))
  {
    var z, c := hdrs[b := m], Cells(b, BlkSize(m));
    forall x | b <= x < b + BlkSize(m) ensures x in owner && owner[x] == b {
      assert InBlock(hdrs, b, x);
    }
    forall x | x in owner ensures InBlock(z, owner[x], x) && (owner[x] == b <==> x in c) {
      assert InBlock(hdrs, owner[x], x);
    }
    forall d, x | InBlock(z, d, x) ensures x in owner && owner[x] == d {
      assert InBlock(hdrs, d, x);
    }
  }

  /** There is no heap at the `n` addresses from `b` on. */
  ghost predicate Vacant(owner: map<nat, nat>, b: nat, n: nat) {
    forall x :: InRange(x, b, n) ==> x !in owner
  }

  /** A new block where there was no heap before. */
  lemma NewTiled(hdrs: Headers, owner: map<nat, nat>, b: nat, m: Hdr)
    requires Tiled(hdrs, owner) && b >= 2 && BlkSize(m) >= 1 && Vacant(owner, b, BlkSize(m))
    ensures b !in hdrs && Tiled(hdrs[b := m], Owned(owner, b, BlkSize(m)))
  {
    var z, o := hdrs[b := m], Owned(owner, b, BlkSize(m));
    assert InRange(b, b, BlkSize(m));
    assert b in hdrs ==> InBlock(hdrs, b, b);
    forall x | x in o ensures InBlock(z, o[x], x) {
      if x in owner {
        assert InBlock(hdrs, owner[x], x);
      }
    }
    forall d, x | InBlock(z, d, x) ensures x in o && o[x] == d {
      if d != b {
        assert InBlock(hdrs, d, x);
        assert !InRange(x, b, BlkSize(m));
      } else {
        assert InRange(x, b, BlkSize(m));
      }
    }
  }

  lemma NewCells(hdrs: Headers, owner: map<nat, nat>, b: nat, m: Hdr)
    requires Tiled(hdrs, owner) && m.Used? && b !in hdrs && Vacant(owner, b, BlkSize(m))
    ensures var z := hdrs[b := m]; var o := Owned(owner, b, BlkSize(m));
      && FreeCells(z, o) == FreeCells(hdrs, owner) && UsedOf(z) == UsedOf(hdrs)[b := m]
      && o.Keys == owner.Keys + Cells(b, BlkSize(m)) && |o.Keys| == |owner.Keys| + BlkSize(m)
  {
    var o := Owned(owner, b, BlkSize(m));
    CellsCount(b, BlkSize(m));
    OwnedKeys(owner, b, BlkSize(m));
    forall x | x in owner ensures o[x] == owner[x] && owner[x] != b {
      assert InBlock(hdrs, owner[x], x);
      assert !InRange(x, b, BlkSize(m));
    }
  }

  lemma OwnedKeys(owner: map<nat, nat>, b: nat, n: nat)
    requires Vacant(owner, b, n)
    ensures owner.Keys !! Cells(b, n) && Owned(owner, b, n).Keys == owner.Keys + Cells(b, n)
    ensures |Owned(owner, b, n).Keys| == |owner.Keys| + |Cells(b, n)|
  {
    assert owner.Keys !! Cells(b, n);
    assert Owned(owner, b, n).Keys == owner.Keys + Cells(b, n);
  }

  /** Blocks of one heap block each that have been given up: in use as pointer-free, but never handed out. */
  ghost function GivenUp(ds: set<nat>): map<nat, Hdr> {
    map d | d in ds :: Used(HBLKSIZE, M.PtrFree)
  }

  /** A free block is given up in pieces of one heap block each. */
  lemma ShatterTiled(hdrs: Headers, owner: map<nat, nat>, h: nat, n: nat)
    requires Tiled(hdrs, owner) && h in hdrs && hdrs[h].Free? && hdrs[h].nblks == n
    ensures var c := Cells(h, n); var z := hdrs + GivenUp(c); var o := map x | x in owner :: if InRange(x, h, n) then x else owner[x];
      && Tiled(z, o) && o.Keys == owner.Keys && c <= FreeCells(hdrs, owner)
      && FreeCells(z, o) == FreeCells(hdrs, owner) - c && UsedOf(z) == UsedOf(hdrs) + GivenUp(c)
      && (forall b :: b in hdrs && b in c ==> b == h)
  {
    var c := Cells(h, n);
    var z := hdrs + GivenUp(c);
    var o := map x | x in owner :: if InRange(x, h, n) then x else owner[x];
    forall x | x in c ensures x in owner && owner[x] == h {
      assert InBlock(hdrs, h, x);
    }
    forall b | b in hdrs && b in c ensures b == h {
      assert InBlock(hdrs, b, b);
    }
    forall x | x in o ensures InBlock(z, o[x], x) {
      assert InBlock(hdrs, owner[x], x);
    }
    forall d, x | InBlock(z, d, x) ensures x in o && o[x] == d {
      if d !in c {
        assert InBlock(hdrs, d, x);
      }
    }
  }
}
