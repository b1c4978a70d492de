/**
 The table of static roots: segments of static data, permanent or temporary, and an index by
 which a segment is found by its start.
 */
module Roots {
  import opened Powers

  const ALIGNMENT: nat := 8
  const MAX_ROOT_SETS: nat := 2048
  const RT_SIZE: nat := 64

  datatype Root = Root(start: nat, end: nat, tmp: bool)

  /** Address `a` is in a permanent root. */
  ghost predicate InPermanent(rs: seq<Root>, a: nat) {
    exists i :: 0 <= i < |rs| && !rs[i].tmp && rs[i].start <= a < rs[i].end
  }

  predicate Apart(r: Root, s: Root) {
    r.end <= s.start || s.end <= r.start
  }

  ghost predicate Disjoint(rs: seq<Root>) {
    forall i, j :: 0 <= i < j < |rs| ==> Apart(rs[i], rs[j])
  }

  predicate RootOk(r: Root) {
    r.start < r.end && r.start % ALIGNMENT == 0 && r.end % ALIGNMENT == 0
  }

  ghost predicate AllOk(rs: seq<Root>) {
    forall i :: 0 <= i < |rs| ==> RootOk(rs[i])
  }

  /** Behind a temporary root there are only temporary ones. */
  ghost predicate TmpLast(rs: seq<Root>) {
    forall i, j :: 0 <= i < j < |rs| && rs[i].tmp ==> rs[j].tmp
  }

  /** Both tables hold the same temporary roots, in whatever order. */
  ghost predicate SameTmp(rs: seq<Root>, zs: seq<Root>) {
    forall r: Root :: r.tmp ==> multiset(rs)[r] == multiset(zs)[r]
  }

  /** The sum of what `f` says of the roots. */
  function Total(rs: seq<Root>, f: Root -> int): int {
    if rs == [] then 0 else Total(rs[..|rs| - 1], f) + f(rs[|rs| - 1])
  }

  function Length(r: Root): int {
    r.end - r.start
  }

  /** `GC_compute_root_size`. */
  function Size(rs: seq<Root>): int {
    Total(rs, Length)
  }

  lemma {:induction false} TotalUpdate(rs: seq<Root>, i: nat, r: Root, f: Root -> int)
    requires i < |rs|
    ensures Total(rs[i := r], f) == Total(rs, f) - f(rs[i]) + f(r)
  {
    var n := |rs| - 1;
    if i == n {
      assert rs[i := r][..n] == rs[..n];
    } else {
      TotalUpdate(rs[..n], i, r, f);
      assert rs[i := r][..n] == rs[..n][i := r];
    }
  }

  lemma TotalAppend(rs: seq<Root>, r: Root, f: Root -> int)
    ensures Total(rs + [r], f) == Total(rs, f) + f(r)
  {
    assert (rs + [r])[..|rs|] == rs;
  }

  /** The table with root `i` replaced by the last one. */
  function RemovedAt(rs: seq<Root>, i: nat): seq<Root>
    requires i < |rs|
  {
    rs[i := rs[|rs| - 1]][..|rs| - 1]
  }

  lemma TotalRemoved(rs: seq<Root>, i: nat, f: Root -> int)
    requires i < |rs|
    ensures Total(RemovedAt(rs, i), f) == Total(rs, f) - f(rs[i])
  {
    TotalUpdate(rs, i, rs[|rs| - 1], f);
  }

  function Swapped(rs: seq<Root>, i: nat, j: nat): seq<Root>
    requires i < |rs| && j < |rs|
  {
    rs[i := rs[j]][j := rs[i]]
  }

  lemma TotalSwapped(rs: seq<Root>, i: nat, j: nat, f: Root -> int)
    requires i < |rs| && j < |rs|
    ensures Total(Swapped(rs, i, j), f) == Total(rs, f)
  {
    TotalUpdate(rs, i, rs[j], f);
    TotalUpdate(rs[i := rs[j]], j, rs[i], f);
  }

  lemma MultisetSwapped(rs: seq<Root>, i: nat, j: nat)
    requires i < |rs| && j < |rs|
    ensures multiset(Swapped(rs, i, j)) == multiset(rs)
  {
    var y := rs[i := rs[j]];
    assert multiset(y) == multiset(rs) - multiset{rs[i]} + multiset{rs[j]};
    var z := y[j := rs[i]];
    assert multiset(z) == multiset(y) - multiset{y[j]} + multiset{rs[i]};
    assert y[j] == rs[j] && rs[i] in rs && z == Swapped(rs, i, j);
    assert multiset(rs)[rs[i]] > 0;
  }

  lemma MultisetRemoved(rs: seq<Root>, i: nat)
    requires i < |rs|
    ensures multiset(RemovedAt(rs, i)) == multiset(rs) - multiset{rs[i]}
  {
    var n := |rs| - 1;
    var y := rs[..n];
    assert rs == y + [rs[n]];
    if i < n {
      assert RemovedAt(rs, i) == y[i := rs[n]];
      assert multiset(y[i := rs[n]]) == multiset(y) - multiset{y[i]} + multiset{rs[n]};
      assert y[i] == rs[i] && y[i] in multiset(y);
    } else {
      assert RemovedAt(rs, i) == y;
    }
  }

  // -----------------------------------------------------------------------------------
  // The index
  // -----------------------------------------------------------------------------------

  /** `rt_hash`. */
  function Hash(addr: nat): (h: nat)
    ensures h < RT_SIZE
  {
    var a := Xor(addr, addr / 0x1_0000_0000_0000);
    var b := Xor(a, a / 0x100_0000);
    var c := Xor(b, b / 0x1000);
    Xor(c, c / 0x40) % RT_SIZE
  }

  /** Every root is in the chain for its start, by its position, and nothing else is in any chain. */
  ghost predicate Indexed(rs: seq<Root>, index: seq<seq<nat>>) {
    && |index| == RT_SIZE
    && (forall i :: 0 <= i < |rs| ==> i in index[Hash(rs[i].start)])
    && (forall h, k :: 0 <= h < RT_SIZE && 0 <= k < |index[h]| ==> index[h][k] < |rs| && Hash(rs[index[h][k]].start) == h)
  }

  lemma IndexedMore(rs: seq<Root>, index: seq<seq<nat>>, r: Root)
    requires Indexed(rs, index)
    ensures Indexed(rs + [r], index[Hash(r.start) := [|rs|] + index[Hash(r.start)]])
  {
    hide Hash;
  }

  /** Only the end and the kind of a root change: the index depends on neither. */
  lemma IndexedSame(rs: seq<Root>, index: seq<seq<nat>>, i: nat, r: Root)
    requires Indexed(rs, index) && i < |rs| && r.start == rs[i].start
    ensures Indexed(rs[i := r], index)
  {
    hide Hash;
  }

  // -----------------------------------------------------------------------------------
  // The table
  // -----------------------------------------------------------------------------------

  class RootTable {
    const table: array<Root>
    var n: nat
    var rootSize: int
    var index: seq<seq<nat>>

    ghost predicate Fits()
      reads this`n
    {
      n <= table.Length == MAX_ROOT_SETS
    }

    ghost function Contents(): seq<Root>
      requires Fits()
      reads this`n, table
    {
      table[..n]
    }

    /** The size is right, and every root has its proper bounds. */
    ghost predicate Sized()
      reads this`n, this`rootSize, table
    {
      Fits() && AllOk(Contents()) && rootSize == Size(Contents())
    }

    ghost predicate Valid()
      reads this`n, this`rootSize, this`index, table
    {
      Sized() && Indexed(Contents(), index)
    }

    constructor ()
      ensures Valid() && fresh(table) && Contents() == []
    {
      table := new Root[MAX_ROOT_SETS](i => Root(0, 0, false));
      n, rootSize, index := 0, 0, seq(RT_SIZE, i => []);
    }

    /** `GC_roots_present`: the position of a root that starts at `b`, if there is one. */
    method RootsPresent(b: nat) returns (found: bool, p: nat)
      requires Valid()
      ensures found ==> p < n && table[p].start == b
      ensures !found ==> forall i :: 0 <= i < n ==> table[i].start != b
    {
      ghost var rs := Contents();
      var chain := index[Hash(b)];
      found, p := false, 0;
      for k := 0 to |chain|
        invariant forall l :: 0 <= l < k ==> rs[chain[l]].start != b
      {
        if table[chain[k]].start == b {
          return true, chain[k];
        }
      }
      forall i | 0 <= i < n ensures table[i].start != b {
        assert rs[i] == table[i];
      }
    }

    /** `GC_rebuild_root_index`. */
    method RebuildIndex()
      requires Sized()
      modifies this`index
      ensures Valid()
    {
      ghost var rs := Contents();
      index := seq(RT_SIZE, i => []);
      for i := 0 to n
        invariant Indexed(rs[..i], index)
      {
        IndexedMore(rs[..i], index, rs[i]);
        assert rs[..i] + [rs[i]] == rs[..i + 1];
        var h := Hash(table[i].start);
        index := index[h := [i] + index[h]];
      }
      assert rs[..n] == rs;
    }

    /** `GC_remove_root_at_pos`: the last root takes the place of root `i`. */
    method RemoveAtPos(i: nat)
      requires Sized() && i < n
      modifies this`n, this`rootSize, table
      ensures Sized() && Contents() == RemovedAt(old(Contents()), i)
    {
      TotalRemoved(Contents(), i, Length);
      rootSize := rootSize - (table[i].end - table[i].start);
      table[i] := table[n - 1];
      n := n - 1;
      assert Contents() == RemovedAt(old(Contents()), i);
    }

    /** `swap_static_roots`. */
    method SwapRoots(i: nat, j: nat)
      requires Sized() && i < n && j < n
      modifies table
      ensures Sized() && Contents() == Swapped(old(Contents()), i, j)
    {
      TotalSwapped(Contents(), i, j, Length);
      table[i], table[j] := table[j], table[i];
      assert Contents() == Swapped(old(Contents()), i, j);
    }

    /** Root `i` gets other bounds or another kind. */
    method Change(i: nat, r: Root)
      requires Sized() && i < n && RootOk(r)
      modifies this`rootSize, table
      ensures Sized() && Contents() == old(Contents())[i := r]
    {
      TotalUpdate(Contents(), i, r, Length);
      rootSize := rootSize - (table[i].end - table[i].start) + (r.end - r.start);
      table[i] := r;
      assert Contents() == old(Contents())[i := r];
    }

    /** A root goes to the end of the table and into the index. */
    method Append(r: Root)
      requires Valid() && RootOk(r) && n < MAX_ROOT_SETS
      modifies this`n, this`rootSize, this`index, table
      ensures Valid() && Contents() == old(Contents()) + [r]
    {
      TotalAppend(Contents(), r, Length);
      IndexedMore(Contents(), index, r);
      table[n] := r;
      var h := Hash(r.start);
      index := index[h := [n] + index[h]];
      rootSize := rootSize + (r.end - r.start);
      n := n + 1;
      assert Contents() == old(Contents()) + [r];
    }

    /** `GC_add_roots_inner`; `false` if the table is full, which aborts the program. */
    method AddRoots(b0: nat, e0: nat, tmp: bool) returns (ok: bool)
      requires Valid() && b0 <= e0
      modifies this`n, this`rootSize, this`index, table
      ensures Valid()
      ensures ok ==> Grown(old(Contents()), Contents(), RoundUp(b0), RoundDown(e0), tmp)
      ensures ok && RoundUp(b0) < RoundDown(e0) && NoneStartsAt(old(Contents()), RoundUp(b0)) ==>
                Contents() == old(Contents()) + [Root(RoundUp(b0), RoundDown(e0), tmp)]
      ensures ok && RoundUp(b0) < RoundDown(e0) && !tmp && !NoneStartsAt(old(Contents()), RoundUp(b0)) ==>
                exists p :: Extended(old(Contents()), Contents(), p, RoundUp(b0), RoundDown(e0))
      ensures ok && RoundUp(b0) < RoundDown(e0) && tmp && !NoneStartsAt(old(Contents()), RoundUp(b0)) ==>
                exists p :: ExtendedForNow(old(Contents()), Contents(), p, RoundUp(b0), RoundDown(e0))
      ensures RoundUp(b0) >= RoundDown(e0) ==> ok && Contents() == old(Contents())
      ensures !ok ==> old(n) == MAX_ROOT_SETS && Contents() == old(Contents())
      ensures !ok ==> NoneStartsAt(old(Contents()), RoundUp(b0)) || (tmp && PermanentAt(old(Contents()), RoundUp(b0), RoundDown(e0)))
      ensures old(n) == MAX_ROOT_SETS && RoundUp(b0) < RoundDown(e0) && NoneStartsAt(old(Contents()), RoundUp(b0)) ==> !ok
    {
      hide Grown, Size, Indexed, Hash, AllOk;
      var b, e := RoundUp(b0), RoundDown(e0);
      ok := true;
      ghost var rs := Contents();
      if b >= e {
        NothingGrows(rs, b, e, tmp);
        return;
      }
      var found, p := RootsPresent(b);
      if found {
        var r := table[p];
        RootIsOk(rs, p);
        if e <= r.end {
          var z := r.(tmp := r.tmp && tmp);
          IndexedSame(rs, index, p, z);
          Change(p, z);
          ChangeGrows(rs, p, z, e, tmp);
          assert if tmp then ExtendedForNow(rs, Contents(), p, b, e) else Extended(rs, Contents(), p, b, e);
          return;
        }
        if r.tmp == tmp || !tmp {
          var z := Root(r.start, e, tmp);
          IndexedSame(rs, index, p, z);
          Change(p, z);
          ChangeGrows(rs, p, z, e, tmp);
          assert if tmp then ExtendedForNow(rs, Contents(), p, b, e) else Extended(rs, Contents(), p, b, e);
          return;
        }
        b := r.end;
      }
      if n == MAX_ROOT_SETS {
        return false;
      }
      ghost var b1 := RoundUp(b0);
      Append(Root(b, e, tmp));
      AppendGrows(rs, Root(b, e, tmp), b1, if found then p else |rs|);
      assert found ==> ExtendedForNow(rs, Contents(), p, b1, e);
    }
  }

  /** Address `a` is in a root. */
  ghost predicate InSome(rs: seq<Root>, a: nat) {
    exists i :: 0 <= i < |rs| && rs[i].start <= a < rs[i].end
  }

  predicate Between(a: nat, b: nat, e: nat) {
    b <= a < e
  }

  /** Address `a` is in a temporary root that starts at `b`. */
  ghost predicate InTmpAt(rs: seq<Root>, b: nat, a: nat) {
    exists i :: 0 <= i < |rs| && rs[i].tmp && rs[i].start == b <= a < rs[i].end
  }

  /**
   `[b, e)` has been added to the roots, to the permanent ones if it is not temporary, and nothing
   has been lost. A temporary range leaves the permanent ones as they are; a permanent one makes
   the root that starts where it does permanent, too.
   */
  ghost predicate Grown(rs: seq<Root>, zs: seq<Root>, b: nat, e: nat, tmp: bool) {
    && (forall a: nat :: InSome(zs, a) <==> (InSome(rs, a) || Between(a, b, e)))
    && (forall a: nat :: InPermanent(rs, a) ==> InPermanent(zs, a))
    && (!tmp ==> forall a: nat :: Between(a, b, e) ==> InPermanent(zs, a))
    && (forall a: nat :: InPermanent(zs, a) ==> InPermanent(rs, a) || (!tmp && (Between(a, b, e) || InTmpAt(rs, b, a))))
  }

  /** A temporary range has been added that begins where root `p` does: to this root, unless that is permanent. */
  ghost predicate ExtendedForNow(rs: seq<Root>, now: seq<Root>, p: nat, b: nat, e: nat) {
    && p < |rs| && rs[p].start == b
    && now == if e <= rs[p].end then rs else if rs[p].tmp then rs[p := Root(b, e, true)] else rs + [Root(rs[p].end, e, true)]
  }

  /** A permanent root starts at `b` and ends before `e`. */
  ghost predicate PermanentAt(rs: seq<Root>, b: nat, e: nat) {
    exists p :: 0 <= p < |rs| && rs[p].start == b && rs[p].end < e && !rs[p].tmp
  }

  /** Root `p`, which starts at `b`, has become permanent, and reaches to `e` at least. */
  ghost predicate Extended(rs: seq<Root>, zs: seq<Root>, p: nat, b: nat, e: nat) {
    p < |rs| && rs[p].start == b && zs == rs[p := Root(b, if e <= rs[p].end then rs[p].end else e, false)]
  }

  ghost predicate NoneStartsAt(rs: seq<Root>, b: nat) {
    forall i :: 0 <= i < |rs| ==> rs[i].start != b
  }

  function RoundUp(a: nat): nat {
    (a + (ALIGNMENT - 1)) / ALIGNMENT * ALIGNMENT
  }

  function RoundDown(a: nat): nat {
    a / ALIGNMENT * ALIGNMENT
  }

  lemma RootIsOk(rs: seq<Root>, p: nat)
    requires AllOk(rs) && p < |rs|
    ensures RootOk(rs[p])
  {
  }

  lemma NothingGrows(rs: seq<Root>, b: nat, e: nat, tmp: bool)
    requires b >= e
    ensures Grown(rs, rs, b, e, tmp)
  {
  }

  /** A root that grows, or becomes permanent, loses nothing. */
  lemma ChangeGrows(rs: seq<Root>, p: nat, z: Root, e: nat, tmp: bool)
    requires p < |rs| && z.start == rs[p].start && z.end == (if e <= rs[p].end then rs[p].end else e) && e > z.start
    requires z.tmp <==> rs[p].tmp && tmp
    requires e <= rs[p].end || rs[p].tmp == tmp || !tmp
    requires rs[p].start < rs[p].end
    ensures Grown(rs, rs[p := z], z.start, e, tmp)
  {
    var y := rs[p := z];
    assert y[p] == z && forall i :: 0 <= i < |rs| && i != p ==> y[i] == rs[i];
  }

  /** A new root goes where the root at position `p`, which starts at `b`, ends, or where none starts. */
  lemma AppendGrows(rs: seq<Root>, z: Root, b: nat, p: nat)
    requires p <= |rs| && if p < |rs| then rs[p].start == b && z.start == rs[p].end && z.tmp && b < z.start <= z.end else z.start == b
    ensures Grown(rs, rs + [z], b, z.end, z.tmp)
  {
    var y := rs + [z];
    assert y[|rs|] == z && forall i :: 0 <= i < |rs| ==> y[i] == rs[i];
  }

  // -----------------------------------------------------------------------------------
  // Removing a region from the permanent roots
  // -----------------------------------------------------------------------------------

  predicate Outside(r: Root, b: nat, e: nat) {
    e <= r.start || r.end <= b
  }

  /** From table `rs0` the region `[b, e)` has been taken out as far as the roots before position `i` go. */
  ghost predicate Carved(rs0: seq<Root>, rs: seq<Root>, b: nat, e: nat, i: nat) {
    && i <= |rs| && TmpLast(rs) && (Disjoint(rs0) ==> Disjoint(rs)) && NoTmpStartsAt(rs, e)
    && (forall k :: 0 <= k < i ==> !rs[k].tmp && Outside(rs[k], b, e))
    && SameUnion(rs0, rs, b, e) && SameTmp(rs0, rs)
  }

  ghost predicate NoTmpStartsAt(rs: seq<Root>, e: nat) {
    forall k :: 0 <= k < |rs| && rs[k].tmp ==> rs[k].start != e
  }

  /** The same addresses are in permanent roots, but for some of `[b, e)`, which may be missing. */
  ghost predicate SameUnion(rs0: seq<Root>, rs: seq<Root>, b: nat, e: nat) {
    && (forall a: nat :: InPermanent(rs, a) ==> InPermanent(rs0, a))
    && (forall a: nat :: InPermanent(rs0, a) && !Between(a, b, e) ==> InPermanent(rs, a))
  }

  lemma SameUnionTrans(rs0: seq<Root>, rs: seq<Root>, zs: seq<Root>, b: nat, e: nat)
    requires SameUnion(rs0, rs, b, e) && SameUnion(rs, zs, b, e)
    ensures SameUnion(rs0, zs, b, e)
  {
  }

  /** Whether a root has yet to be dealt with. */
  function Weigher(b: nat, e: nat): Root -> int {
    (r: Root) => if !r.tmp && !Outside(r, b, e) then 1 else 0
  }

  /** How many permanent roots meet the region. */
  function Hits(rs: seq<Root>, b: nat, e: nat): int {
    Total(rs, Weigher(b, e))
  }

  lemma {:induction false} HitsAreCounted(rs: seq<Root>, b: nat, e: nat)
    ensures Hits(rs, b, e) >= 0
  {
    if rs != [] {
      HitsAreCounted(rs[..|rs| - 1], b, e);
    }
  }

  /** Permanent root `i` becomes its part `z`; the rest of it was in the region. */
  lemma ShrinkUnion(rs: seq<Root>, b: nat, e: nat, i: nat, z: Root)
    requires i < |rs| && !rs[i].tmp && !z.tmp && rs[i].start <= z.start <= z.end <= rs[i].end
    requires forall a: nat :: rs[i].start <= a < rs[i].end && !(z.start <= a < z.end) ==> Between(a, b, e)
    ensures SameUnion(rs, rs[i := z], b, e) && (Disjoint(rs) ==> Disjoint(rs[i := z]))
  {
    var zs := rs[i := z];
    forall a: nat | InPermanent(rs, a) && !Between(a, b, e) ensures InPermanent(zs, a) {
      var k :| 0 <= k < |rs| && !rs[k].tmp && rs[k].start <= a < rs[k].end;
      assert zs[k] == if k == i then z else rs[k];
    }
    forall a: nat | InPermanent(zs, a) ensures InPermanent(rs, a) {
      var k :| 0 <= k < |zs| && !zs[k].tmp && zs[k].start <= a < zs[k].end;
      assert rs[k].start <= a < rs[k].end && !rs[k].tmp;
    }
    forall k, l | Disjoint(rs) && 0 <= k < l < |zs| ensures Apart(zs[k], zs[l]) {
      assert Apart(rs[k], rs[l]);
    }
  }

  lemma ShrinkTmp(rs: seq<Root>, i: nat, z: Root)
    requires i < |rs| && !rs[i].tmp && !z.tmp
    ensures SameTmp(rs, rs[i := z]) && (TmpLast(rs) ==> TmpLast(rs[i := z]))
    ensures forall e :: NoTmpStartsAt(rs, e) ==> NoTmpStartsAt(rs[i := z], e)
  {
    assert multiset(rs[i := z]) == multiset(rs) - multiset{rs[i]} + multiset{z};
  }

  /** The cases in which a root keeps one part. */
  lemma KeepsPart(rs0: seq<Root>, rs: seq<Root>, b: nat, e: nat, i: nat, z: Root)
    requires Carved(rs0, rs, b, e, i) && i < |rs| && !rs[i].tmp && RootOk(rs[i]) && !z.tmp && Outside(z, b, e) && b < e
    requires (rs[i].start < b < rs[i].end <= e && z == Root(rs[i].start, b, false))
          || (b <= rs[i].start < e < rs[i].end && z == Root(e, rs[i].end, false))
    ensures Carved(rs0, rs[i := z], b, e, i + 1) && Hits(rs[i := z], b, e) < Hits(rs, b, e)
  {
    var zs := rs[i := z];
    ShrinkUnion(rs, b, e, i, z);
    ShrinkTmp(rs, i, z);
    SameUnionTrans(rs0, rs, zs, b, e);
    TotalUpdate(rs, i, z, Weigher(b, e));
    hide SameUnion, Disjoint, TmpLast, SameTmp, NoTmpStartsAt, Total;
    assert forall k :: 0 <= k < i ==> zs[k] == rs[k];
  }

  lemma SwapKeeps(rs: seq<Root>, i: nat, j: nat, b: nat, e: nat)
    requires i < |rs| && j < |rs|
    ensures var zs := Swapped(rs, i, j);
      && SameUnion(rs, zs, b, e) && (Disjoint(rs) ==> Disjoint(zs)) && SameTmp(rs, zs)
      && (NoTmpStartsAt(rs, e) ==> NoTmpStartsAt(zs, e))
  {
    var zs := Swapped(rs, i, j);
    MultisetSwapped(rs, i, j);
    forall a: nat | InPermanent(rs, a) ensures InPermanent(zs, a) {
      var k :| 0 <= k < |rs| && !rs[k].tmp && rs[k].start <= a < rs[k].end;
      assert zs[if k == i then j else if k == j then i else k] == rs[k];
    }
    forall a: nat | InPermanent(zs, a) ensures InPermanent(rs, a) {
      var k :| 0 <= k < |zs| && !zs[k].tmp && zs[k].start <= a < zs[k].end;
      assert zs[k] == rs[if k == i then j else if k == j then i else k];
    }
    forall k, l | Disjoint(rs) && 0 <= k < l < |zs| ensures Apart(zs[k], zs[l]) {
      var k', l' := if k == i then j else if k == j then i else k, if l == i then j else if l == j then i else l;
      assert zs[k] == rs[k'] && zs[l] == rs[l'] && k' != l';
      assert Apart(rs[if k' < l' then k' else l'], rs[if k' < l' then l' else k']);
    }
  }

  /** Permanent root `i` keeps the parts before and behind the region; the second part goes to the end. */
  lemma SplitUnion(rs: seq<Root>, b: nat, e: nat, i: nat)
    requires i < |rs| && !rs[i].tmp && rs[i].start < b < e < rs[i].end
    ensures SameUnion(rs, Split(rs, i, b, e), b, e)
  {
    var z, y := Root(rs[i].start, b, false), Root(e, rs[i].end, false);
    var zs := rs[i := z] + [y];
    assert zs[|rs|] == y && forall k :: 0 <= k < |rs| ==> zs[k] == if k == i then z else rs[k];
    forall a: nat | InPermanent(rs, a) && !Between(a, b, e) ensures InPermanent(zs, a) {
      var k :| 0 <= k < |rs| && !rs[k].tmp && rs[k].start <= a < rs[k].end;
      assert !zs[if k == i && a >= e then |rs| else k].tmp;
    }
    forall a: nat | InPermanent(zs, a) ensures InPermanent(rs, a) {
      var k :| 0 <= k < |zs| && !zs[k].tmp && zs[k].start <= a < zs[k].end;
      assert !rs[if k == |rs| then i else k].tmp;
    }
  }

  lemma SplitDisjoint(rs: seq<Root>, b: nat, e: nat, i: nat)
    requires i < |rs| && rs[i].start < b < e < rs[i].end && Disjoint(rs)
    ensures Disjoint(Split(rs, i, b, e))
  {
    var zs := Split(rs, i, b, e);
    assert forall k :: 0 <= k < |rs| && k != i ==> zs[k] == rs[k];
    forall k, l | 0 <= k < l < |zs| ensures Apart(zs[k], zs[l]) {
      assert l < |rs| ==> Apart(rs[k], rs[l]);
      assert l == |rs| && k != i ==> Apart(rs[if k < i then k else i], rs[if k < i then i else k]);
    }
  }

  lemma SplitTmp(rs: seq<Root>, b: nat, e: nat, i: nat)
    requires i < |rs| && !rs[i].tmp && rs[i].start < b < e < rs[i].end
    ensures var zs := Split(rs, i, b, e);
      && SameTmp(rs, zs) && (NoTmpStartsAt(rs, e) ==> NoTmpStartsAt(zs, e)) && Hits(zs, b, e) < Hits(rs, b, e)
  {
    var z, y := Root(rs[i].start, b, false), Root(e, rs[i].end, false);
    ShrinkTmp(rs, i, z);
    TotalUpdate(rs, i, z, Weigher(b, e));
    TotalAppend(rs[i := z], y, Weigher(b, e));
  }

  function Split(rs: seq<Root>, i: nat, b: nat, e: nat): seq<Root>
    requires i < |rs|
  {
    rs[i := Root(rs[i].start, b, false)] + [Root(e, rs[i].end, false)]
  }

  lemma SplitAndSwap(rs: seq<Root>, b: nat, e: nat, i: nat, m: nat)
    requires i < |rs| && !rs[i].tmp && rs[i].start < b < e < rs[i].end && m <= |rs|
    ensures |Split(rs, i, b, e)| == |rs| + 1
    ensures var ws := Swapped(Split(rs, i, b, e), m, |rs|);
      && SameUnion(rs, ws, b, e) && (Disjoint(rs) ==> Disjoint(ws)) && SameTmp(rs, ws)
      && (NoTmpStartsAt(rs, e) ==> NoTmpStartsAt(ws, e)) && Hits(ws, b, e) < Hits(rs, b, e)
  {
    hide SameUnion, Disjoint, InPermanent, Swapped, SameTmp, NoTmpStartsAt;
    var zs := Split(rs, i, b, e);
    SplitUnion(rs, b, e, i);
    SplitTmp(rs, b, e, i);
    if Disjoint(rs) {
      SplitDisjoint(rs, b, e, i);
    }
    SwapKeeps(zs, m, |rs|, b, e);
    TotalSwapped(zs, m, |rs|, Weigher(b, e));
    SameUnionTrans(rs, zs, Swapped(zs, m, |rs|), b, e);
    SameTmpTrans(rs, zs, Swapped(zs, m, |rs|));
  }

  /** The first roots stay where they are when two later ones change places. */
  lemma FirstOnesStay(rs: seq<Root>, b: nat, e: nat, i: nat, m: nat)
    requires i < m <= |rs| && rs[i].start < b && !rs[i].tmp
    requires forall k :: 0 <= k < i ==> !rs[k].tmp && Outside(rs[k], b, e)
    ensures var ws := Swapped(Split(rs, i, b, e), m, |rs|);
      |ws| == |rs| + 1 && forall k :: 0 <= k < i + 1 ==> !ws[k].tmp && Outside(ws[k], b, e)
  {
  }

  /** The case in which a root keeps two parts: the new one changes places with the first temporary root. */
  lemma KeepsTwoParts(rs0: seq<Root>, rs: seq<Root>, b: nat, e: nat, i: nat, zs: seq<Root>, j: nat)
    requires Carved(rs0, rs, b, e, i) && i < |rs| && !rs[i].tmp && rs[i].start < b < e < rs[i].end
    requires zs == Split(rs, i, b, e)
    requires i < j <= |zs| && (forall k :: i < k < j ==> !zs[k].tmp) && (j < |zs| ==> zs[j].tmp)
    ensures var ws := if j < |zs| - 1 then Swapped(zs, j, |zs| - 1) else zs;
      Carved(rs0, ws, b, e, i + 1) && Hits(ws, b, e) < Hits(rs, b, e)
  {
    hide SameUnion, Disjoint, InPermanent, Hits, Swapped, SameTmp, TmpLast, Split, Outside, NoTmpStartsAt;
    var n := |zs| - 1;
    var m := if j < n then j else n;
    SplitFacts(rs, i, b, e);
    SwapToItself(zs, n);
    TmpLastAgain(rs, zs, i, j);
    SplitAndSwap(rs, b, e, i, m);
    SameUnionTrans(rs0, rs, Swapped(zs, m, n), b, e);
    SameTmpTrans(rs0, rs, Swapped(zs, m, n));
    FirstOnesStay(rs, b, e, i, m);
  }

  lemma SplitFacts(rs: seq<Root>, i: nat, b: nat, e: nat)
    requires i < |rs| && !rs[i].tmp
    ensures var zs := Split(rs, i, b, e);
      |zs| == |rs| + 1 && !zs[|rs|].tmp && forall k :: 0 <= k < |rs| ==> zs[k].tmp == rs[k].tmp
  {
  }

  lemma SwapToItself(zs: seq<Root>, n: nat)
    requires n < |zs|
    ensures Swapped(zs, n, n) == zs
  {
  }

  lemma SameTmpTrans(rs: seq<Root>, zs: seq<Root>, ws: seq<Root>)
    requires SameTmp(rs, zs) && SameTmp(zs, ws)
    ensures SameTmp(rs, ws)
  {
  }

  lemma TmpLastAgain(rs: seq<Root>, zs: seq<Root>, i: nat, j: nat)
    requires TmpLast(rs) && i < |rs| && !rs[i].tmp && |zs| == |rs| + 1 && !zs[|rs|].tmp
    requires forall k :: 0 <= k < |rs| ==> zs[k].tmp == rs[k].tmp
    requires i < j <= |zs| && (forall k :: i < k < j ==> !zs[k].tmp) && (j < |zs| ==> zs[j].tmp)
    ensures TmpLast(if j < |zs| - 1 then Swapped(zs, j, |zs| - 1) else zs)
  {
  }

  /** The case in which some permanent root starts at the end of the region already: that one is extended. */
  lemma KeepsAndExtends(rs0: seq<Root>, rs: seq<Root>, b: nat, e: nat, i: nat, zs: seq<Root>, p: nat)
    requires Carved(rs0, rs, b, e, i) && i < |rs| && !rs[i].tmp && rs[i].start < b < e < rs[i].end && AllOk(rs)
    requires Extended(rs[i := Root(rs[i].start, b, false)], zs, p, e, rs[i].end)
    ensures Carved(rs0, zs, b, e, i + 1) && Hits(zs, b, e) < Hits(rs, b, e)
  {
    var ys, y := rs[i := Root(rs[i].start, b, false)], zs[p];
    assert p != i && ys[p] == rs[p] && !rs[p].tmp && RootOk(rs[p]);
    hide SameUnion, Disjoint, TmpLast, SameTmp, NoTmpStartsAt, Total, AllOk;
    NotDisjoint(rs, i, p, e);
    ShrinkTmp(rs, i, ys[i]);
    ShrinkTmp(ys, p, y);
    SameTmpTrans(rs0, rs, ys);
    SameTmpTrans(rs0, ys, zs);
    ExtendsUnion(rs, b, e, i, zs, p);
    SameUnionTrans(rs0, rs, zs, b, e);
    ExtendsHits(rs, b, e, i, zs, p);
    hide Hits, InPermanent;
    assert forall k :: 0 <= k <= i && k != p && k != i ==> zs[k] == rs[k];
  }

  lemma ExtendsHits(rs: seq<Root>, b: nat, e: nat, i: nat, zs: seq<Root>, p: nat)
    requires i < |rs| && !rs[i].tmp && rs[i].start < b < e < rs[i].end && p < |rs| && p != i && !rs[p].tmp
    requires Extended(rs[i := Root(rs[i].start, b, false)], zs, p, e, rs[i].end)
    ensures Hits(zs, b, e) < Hits(rs, b, e)
  {
    hide Total;
    var ys := rs[i := Root(rs[i].start, b, false)];
    TotalUpdate(rs, i, ys[i], Weigher(b, e));
    TotalUpdate(ys, p, zs[p], Weigher(b, e));
  }

  lemma NotDisjoint(rs: seq<Root>, i: nat, p: nat, e: nat)
    requires i < |rs| && p < |rs| && i != p && rs[p].start == e && rs[i].start < e < rs[i].end && RootOk(rs[p])
    ensures !Disjoint(rs)
  {
    assert !Apart(rs[if i < p then i else p], rs[if i < p then p else i]);
  }

  lemma ExtendsUnion(rs: seq<Root>, b: nat, e: nat, i: nat, zs: seq<Root>, p: nat)
    requires i < |rs| && !rs[i].tmp && rs[i].start < b < e < rs[i].end && p < |rs| && p != i && !rs[p].tmp
    requires Extended(rs[i := Root(rs[i].start, b, false)], zs, p, e, rs[i].end)
    ensures SameUnion(rs, zs, b, e)
  {
    assert forall k :: 0 <= k < |rs| && k != i && k != p ==> zs[k] == rs[k];
    forall a: nat | InPermanent(rs, a) && !Between(a, b, e) ensures InPermanent(zs, a) {
      var k :| 0 <= k < |rs| && !rs[k].tmp && rs[k].start <= a < rs[k].end;
      assert !zs[if k == i && a >= e then p else k].tmp;
    }
    forall a: nat | InPermanent(zs, a) ensures InPermanent(rs, a) {
      var k :| 0 <= k < |zs| && !zs[k].tmp && zs[k].start <= a < zs[k].end;
      assert !rs[if k == p && a < rs[i].end then i else k].tmp;
    }
  }

  lemma RemoveUnion(rs: seq<Root>, b: nat, e: nat, i: nat)
    requires i < |rs| && !rs[i].tmp && b <= rs[i].start && rs[i].end <= e
    ensures SameUnion(rs, RemovedAt(rs, i), b, e)
  {
    var n := |rs| - 1;
    var zs := RemovedAt(rs, i);
    assert forall k :: 0 <= k < n ==> zs[k] == rs[if k == i then n else k];
    forall a: nat | InPermanent(rs, a) && !Between(a, b, e) ensures InPermanent(zs, a) {
      var k :| 0 <= k < |rs| && !rs[k].tmp && rs[k].start <= a < rs[k].end;
      assert k != i;
      assert zs[if k == n then i else k] == rs[k];
    }
    forall a: nat | InPermanent(zs, a) ensures InPermanent(rs, a) {
      var k :| 0 <= k < |zs| && !zs[k].tmp && zs[k].start <= a < zs[k].end;
      assert !rs[if k == i then n else k].tmp;
    }
  }

  lemma RemoveDisjoint(rs: seq<Root>, i: nat)
    requires i < |rs| && Disjoint(rs)
    ensures Disjoint(RemovedAt(rs, i))
  {
    var n := |rs| - 1;
    var zs := RemovedAt(rs, i);
    forall k, l | 0 <= k < l < |zs| ensures Apart(zs[k], zs[l]) {
      var k', l' := if k == i then n else k, if l == i then n else l;
      assert Apart(rs[if k' < l' then k' else l'], rs[if k' < l' then l' else k']);
    }
  }

  lemma RemoveTmp(rs: seq<Root>, b: nat, e: nat, i: nat)
    requires i < |rs| && !rs[i].tmp && RootOk(rs[i]) && b <= rs[i].start && rs[i].end <= e
    ensures var zs := RemovedAt(rs, i);
      && SameTmp(rs, zs) && (NoTmpStartsAt(rs, e) ==> NoTmpStartsAt(zs, e)) && Hits(zs, b, e) < Hits(rs, b, e)
  {
    MultisetRemoved(rs, i);
    TotalRemoved(rs, i, Weigher(b, e));
  }

  lemma RemoveAndSwap(rs: seq<Root>, b: nat, e: nat, i: nat, j: nat)
    requires i < |rs| && !rs[i].tmp && RootOk(rs[i]) && b <= rs[i].start && rs[i].end <= e
    requires i < |rs| - 1 ==> j < |rs| - 1
    ensures var ws := AfterRemoval(rs, i, j);
      && SameUnion(rs, ws, b, e) && (Disjoint(rs) ==> Disjoint(ws)) && SameTmp(rs, ws)
      && (NoTmpStartsAt(rs, e) ==> NoTmpStartsAt(ws, e)) && Hits(ws, b, e) < Hits(rs, b, e)
  {
    hide SameUnion, Disjoint, InPermanent, Swapped, SameTmp, NoTmpStartsAt;
    var zs := RemovedAt(rs, i);
    RemoveUnion(rs, b, e, i);
    RemoveTmp(rs, b, e, i);
    if Disjoint(rs) {
      RemoveDisjoint(rs, i);
    }
    if i < |rs| - 1 {
      SwapKeeps(zs, i, j, b, e);
      TotalSwapped(zs, i, j, Weigher(b, e));
      SameUnionTrans(rs, zs, Swapped(zs, i, j), b, e);
      SameTmpTrans(rs, zs, Swapped(zs, i, j));
    }
  }

  /** The table after root `i` has gone, and what has taken its place has changed places with root `j`. */
  function AfterRemoval(rs: seq<Root>, i: nat, j: nat): seq<Root>
    requires i < |rs| && (i < |rs| - 1 ==> j < |rs| - 1)
  {
    if i == |rs| - 1 then RemovedAt(rs, i) else Swapped(RemovedAt(rs, i), i, j)
  }

  /** Which root that has to be: the last permanent one, if a temporary one has come before permanent ones. */
  predicate SwapPartner(zs: seq<Root>, i: nat, j: nat) {
    if i < |zs| - 1 && zs[i].tmp && !zs[i + 1].tmp
    then i < j < |zs| && (forall k :: i < k <= j ==> !zs[k].tmp) && (j + 1 < |zs| ==> zs[j + 1].tmp)
    else j == i
  }

  lemma TmpLastRemoved(rs: seq<Root>, i: nat, j: nat)
    requires TmpLast(rs) && i < |rs| && !rs[i].tmp && SwapPartner(RemovedAt(rs, i), i, j)
    ensures i < |rs| - 1 ==> i <= j < |rs| - 1
    ensures var ws := AfterRemoval(rs, i, j);
      TmpLast(ws) && |ws| == |rs| - 1 && forall k :: 0 <= k < i ==> ws[k] == rs[k]
  {
  }

  /** The case in which a root goes. */
  lemma KeepsNothing(rs0: seq<Root>, rs: seq<Root>, b: nat, e: nat, i: nat, j: nat)
    requires Carved(rs0, rs, b, e, i) && i < |rs| && !rs[i].tmp && RootOk(rs[i]) && b <= rs[i].start && rs[i].end <= e
    requires SwapPartner(RemovedAt(rs, i), i, j)
    ensures i < |rs| - 1 ==> i <= j < |rs| - 1
    ensures var ws := AfterRemoval(rs, i, j); Carved(rs0, ws, b, e, i) && Hits(ws, b, e) < Hits(rs, b, e)
  {
    hide SameUnion, Disjoint, InPermanent, Hits, SameTmp, TmpLast, Outside, Swapped, RemovedAt, SwapPartner, NoTmpStartsAt;
    TmpLastRemoved(rs, i, j);
    var ws := AfterRemoval(rs, i, j);
    RemoveAndSwap(rs, b, e, i, j);
    SameUnionTrans(rs0, rs, ws, b, e);
    SameTmpTrans(rs0, rs, ws);
  }

  lemma AlignedIsRounded(a: nat)
    requires a % ALIGNMENT == 0
    ensures RoundUp(a) == a == RoundDown(a)
  {
  }

  /** The root is cut off at `b`; what is behind the region becomes a root of its own. */
  method CutMiddle(rt: RootTable, i: nat, b: nat, e: nat, rebuild: bool, ghost rs0: seq<Root>) returns (ok: bool, again: bool)
    requires rt.Sized() && Carved(rs0, rt.Contents(), b, e, i) && i < rt.n && b < e && b % ALIGNMENT == 0 && e % ALIGNMENT == 0
    requires !rt.table[i].tmp && rt.table[i].start < b && e < rt.table[i].end
    requires !rebuild ==> Indexed(rt.Contents(), rt.index)
    modifies rt`n, rt`rootSize, rt`index, rt.table
    ensures ok ==> rt.Sized() && Carved(rs0, rt.Contents(), b, e, i + 1) && i + 1 <= rt.n
    ensures ok ==> Hits(rt.Contents(), b, e) < Hits(old(rt.Contents()), b, e)
    ensures ok && !again ==> Indexed(rt.Contents(), rt.index)
    ensures !ok ==> rt.n == MAX_ROOT_SETS
  {
    hide Carved, Hits, Size, Indexed, Hash, AllOk, Grown, Swapped;
    ghost var rs := rt.Contents();
    var r := rt.table[i];
    RootIsOk(rs, i);
    var z := Root(r.start, b, false);
    rt.Change(i, z);
    if rebuild {
      rt.RebuildIndex();
    } else {
      IndexedSame(rs, rt.index, i, z);
    }
    AlignedIsRounded(e);
    AlignedIsRounded(r.end);
    ok := rt.AddRoots(e, r.end, false);
    again := false;
    if ok {
      var j := i + 1;
      while j < rt.n && !rt.table[j].tmp
        invariant i < j <= rt.n && forall k :: i < k < j ==> !rt.table[k].tmp
      {
        j := j + 1;
      }
      ghost var zs := rt.Contents();
      if NoneStartsAt(rs[i := z], e) {
        assert zs == Split(rs, i, b, e);
        KeepsTwoParts(rs0, rs, b, e, i, zs, j);
      } else {
        ghost var p :| Extended(rs[i := z], zs, p, e, r.end);
        KeepsAndExtends(rs0, rs, b, e, i, zs, p);
        if j < rt.n {
          TmpComesLast(rs0, zs, b, e, i + 1, j);
        }
      }
      if j < rt.n - 1 && !rt.table[rt.n - 1].tmp {
        rt.SwapRoots(j, rt.n - 1);
        again := true;
      }
    }
  }

  lemma TmpComesLast(rs0: seq<Root>, rs: seq<Root>, b: nat, e: nat, i: nat, j: nat)
    requires Carved(rs0, rs, b, e, i) && j < |rs| && rs[j].tmp
    ensures rs[|rs| - 1].tmp
  {
  }

  /** The root keeps one part. */
  method CutOff(rt: RootTable, i: nat, b: nat, e: nat, z: Root, ghost rs0: seq<Root>)
    requires rt.Sized() && Carved(rs0, rt.Contents(), b, e, i) && i < rt.n && b < e && RootOk(z) && !rt.table[i].tmp
    requires var r := rt.table[i];
      || (r.start < b < r.end <= e && z == Root(r.start, b, false))
      || (b <= r.start < e < r.end && z == Root(e, r.end, false))
    modifies rt`rootSize, rt.table
    ensures rt.Sized() && Carved(rs0, rt.Contents(), b, e, i + 1) && rt.Contents() == old(rt.Contents())[i := z]
    ensures Hits(rt.Contents(), b, e) < Hits(old(rt.Contents()), b, e)
  {
    hide Carved, Hits, Size, AllOk;
    ghost var rs := rt.Contents();
    RootIsOk(rs, i);
    KeepsPart(rs0, rs, b, e, i, z);
    rt.Change(i, z);
  }

  /** The root goes altogether; permanent roots stay before temporary ones. */
  method DropRoot(rt: RootTable, i: nat, b: nat, e: nat, ghost rs0: seq<Root>)
    requires rt.Sized() && Carved(rs0, rt.Contents(), b, e, i) && i < rt.n && !rt.table[i].tmp
    requires b <= rt.table[i].start && rt.table[i].end <= e
    modifies rt`n, rt`rootSize, rt.table
    ensures rt.Sized() && Carved(rs0, rt.Contents(), b, e, i) && i <= rt.n
    ensures Hits(rt.Contents(), b, e) < Hits(old(rt.Contents()), b, e)
  {
    hide Carved, Hits, Size, AllOk, Swapped;
    ghost var rs := rt.Contents();
    RootIsOk(rs, i);
    rt.RemoveAtPos(i);
    ghost var zs, p := rt.Contents(), i;
    if i + 1 < rt.n && rt.table[i].tmp && !rt.table[i + 1].tmp {
      var j := i + 2;
      while j < rt.n && !rt.table[j].tmp
        invariant i + 2 <= j <= rt.n && forall k :: i < k < j ==> !rt.table[k].tmp
      {
        j := j + 1;
      }
      p := j - 1;
      rt.SwapRoots(i, j - 1);
    } else {
      SwapNothing(zs, i);
    }
    KeepsNothing(rs0, rs, b, e, i, p);
  }

  lemma SwapNothing(zs: seq<Root>, i: nat)
    ensures i < |zs| ==> Swapped(zs, i, i) == zs
  {
  }

  /**
   `GC_remove_roots_subregion`; `false` if the table is full, which aborts the program. Roots may
   overlap. Temporary roots are removed before the mappings are gone through in ascending order:
   those there are have been found below the region, so that none starts at its end.
   */
  method RemoveSubregion(rt: RootTable, b: nat, e: nat) returns (ok: bool)
    requires rt.Valid() && TmpLast(rt.Contents()) && NoTmpStartsAt(rt.Contents(), e)
    requires b < e && b % ALIGNMENT == 0 && e % ALIGNMENT == 0
    modifies rt`n, rt`rootSize, rt`index, rt.table
    ensures ok ==> rt.Valid() && TmpLast(rt.Contents()) && (Disjoint(old(rt.Contents())) ==> Disjoint(rt.Contents()))
    ensures ok ==> forall a: nat :: InPermanent(rt.Contents(), a) <==> (InPermanent(old(rt.Contents()), a) && !Between(a, b, e))
    ensures ok ==> SameTmp(old(rt.Contents()), rt.Contents())
    ensures !ok ==> rt.n == MAX_ROOT_SETS
  {
    hide Carved, Hits, Size, Indexed, Hash, AllOk;
    ghost var rs0 := rt.Contents();
    CarvingStarts(rs0, b, e);
    var i, rebuild := 0, false;
    ok := true;
    while i < rt.n && !rt.table[i].tmp
      invariant rt.Sized() && Carved(rs0, rt.Contents(), b, e, i) && i <= rt.n
      invariant !rebuild ==> Indexed(rt.Contents(), rt.index)
      decreases Hits(rt.Contents(), b, e), rt.n - i
    {
      HitsAreCounted(rt.Contents(), b, e);
      var r := rt.table[i];
      RootIsOk(rt.Contents(), i);
      if e <= r.start || r.end <= b {
        CarvedNext(rs0, rt.Contents(), b, e, i);
        i := i + 1;
      } else if r.start < b {
        if e < r.end {
          ok, rebuild := CutMiddle(rt, i, b, e, rebuild, rs0);
          if !ok {
            return;
          }
        } else {
          IndexedIf(rebuild, rt.Contents(), rt.index, i, Root(r.start, b, false));
          CutOff(rt, i, b, e, Root(r.start, b, false), rs0);
        }
        i := i + 1;
      } else {
        if e < r.end {
          CutOff(rt, i, b, e, Root(e, r.end, false), rs0);
          i := i + 1;
        } else {
          DropRoot(rt, i, b, e, rs0);
        }
        rebuild := true;
      }
    }
    CarvingEnds(rs0, rt.Contents(), b, e, i);
    if rebuild {
      rt.RebuildIndex();
    }
  }

  lemma IndexedIf(rebuild: bool, rs: seq<Root>, index: seq<seq<nat>>, i: nat, r: Root)
    requires i < |rs| && r.start == rs[i].start
    ensures !rebuild && Indexed(rs, index) ==> Indexed(rs[i := r], index)
  {
    if Indexed(rs, index) {
      IndexedSame(rs, index, i, r);
    }
  }

  lemma CarvingStarts(rs: seq<Root>, b: nat, e: nat)
    requires TmpLast(rs) && NoTmpStartsAt(rs, e)
    ensures Carved(rs, rs, b, e, 0)
  {
  }

  lemma CarvedNext(rs0: seq<Root>, rs: seq<Root>, b: nat, e: nat, i: nat)
    requires Carved(rs0, rs, b, e, i) && i < |rs| && !rs[i].tmp && Outside(rs[i], b, e)
    ensures Carved(rs0, rs, b, e, i + 1)
  {
  }

  /** When only temporary roots are left, no permanent one meets the region. */
  lemma CarvingEnds(rs0: seq<Root>, rs: seq<Root>, b: nat, e: nat, i: nat)
    requires Carved(rs0, rs, b, e, i) && (i < |rs| ==> rs[i].tmp)
    ensures TmpLast(rs) && (Disjoint(rs0) ==> Disjoint(rs)) && SameTmp(rs0, rs)
    ensures forall a: nat :: InPermanent(rs, a) <==> (InPermanent(rs0, a) && !Between(a, b, e))
  {
    forall a: nat | Between(a, b, e) ensures !InPermanent(rs, a) {
      forall k | 0 <= k < |rs| && !rs[k].tmp ensures !(rs[k].start <= a < rs[k].end) {
        assert k < i;
      }
    }
  }
}
