/**
 The free lists of heap blocks: 61 doubly linked lists, linked through the headers of the blocks,
 with the number of free bytes on each. Addresses and sizes count heap blocks of 4096 bytes.
 */
module FreeLists {
  import M = MarkPhase

  const HBLKSIZE: nat := 4096
  const UNIQUE_THRESHOLD: nat := 32
  const HUGE_THRESHOLD: nat := 256
  const FL_COMPRESSION: nat := 8
  const N_HBLK_FLS: nat := (HUGE_THRESHOLD - UNIQUE_THRESHOLD) / FL_COMPRESSION + UNIQUE_THRESHOLD

  /**
   The header of a block. Address 0 is the null pointer. `sz` is the object size in bytes; `mapped`
   says that a free block has not been given back to the operating system.
   */
  datatype Hdr =
    | Free(nblks: nat, prev: nat, next: nat, mapped: bool)
    | Used(sz: nat, kind: M.Kind)

  type Headers = map<nat, Hdr>

  /** `GC_hblk_fl_from_blocks`. */
  function FlIndex(blocks: nat): (i: nat)
    ensures i <= N_HBLK_FLS
  {
    if blocks <= UNIQUE_THRESHOLD then blocks
    else if blocks >= HUGE_THRESHOLD then N_HBLK_FLS
    else (blocks - UNIQUE_THRESHOLD) / FL_COMPRESSION + UNIQUE_THRESHOLD
  }

  /**
   Larger blocks are on later lists, and the first lists hold blocks of one size only. Sizes on
   one list differ by less than `FL_COMPRESSION`, except that all huge blocks are on the last.
   */
  lemma FlIndexMonotone(a: nat, b: nat)
    ensures a <= b ==> FlIndex(a) <= FlIndex(b)
    ensures FlIndex(a) < UNIQUE_THRESHOLD ==> FlIndex(a) == a
    ensures a < HUGE_THRESHOLD && a + FL_COMPRESSION <= b ==> FlIndex(a) < FlIndex(b)
    ensures FlIndex(a) == N_HBLK_FLS <==> a >= HUGE_THRESHOLD
  {
  }

  /** The `j`-th block of a list, or null before its start and after its end. */
  function At(l: seq<nat>, j: int): nat {
    if 0 <= j < |l| then l[j] else 0
  }

  ghost predicate NodeOk(hdrs: Headers, l: seq<nat>, k: nat) {
    && k < |l| && l[k] != 0 && l[k] in hdrs && hdrs[l[k]].Free?
    && hdrs[l[k]].prev == At(l, k - 1) && hdrs[l[k]].next == At(l, k + 1)
  }

  predicate NoRepeats(l: seq<nat>) {
    forall j, k :: 0 <= j < k < |l| ==> l[j] != l[k]
  }

  /** `head` is the start of the doubly linked list `l`. */
  ghost predicate ListOk(hdrs: Headers, head: nat, l: seq<nat>) {
    && head == At(l, 0) && NoRepeats(l)
    && forall k :: 0 <= k < |l| ==> NodeOk(hdrs, l, k)
  }

  /** All lists; `home` tells on which one a block is. */
  ghost predicate Linked(hdrs: Headers, heads: seq<nat>, lists: seq<seq<nat>>, home: map<nat, nat>) {
    && |heads| == |lists| == N_HBLK_FLS + 1
    && (forall i :: 0 <= i < |lists| ==> ListOk(hdrs, heads[i], lists[i]))
    && (forall i, k :: 0 <= i < |lists| && 0 <= k < |lists[i]| ==> lists[i][k] in home && home[lists[i][k]] == i)
    && (forall b :: b in home ==> home[b] < |lists| && b in lists[home[b]])
  }

  // -----------------------------------------------------------------------------------
  // Links
  // -----------------------------------------------------------------------------------

  function SetNext(hdrs: Headers, b: nat, v: nat): Headers {
    if b in hdrs && hdrs[b].Free? then hdrs[b := hdrs[b].(next := v)] else hdrs
  }

  function SetPrev(hdrs: Headers, b: nat, v: nat): Headers {
    if b in hdrs && hdrs[b].Free? then hdrs[b := hdrs[b].(prev := v)] else hdrs
  }

  /** Headers that differ in links only. */
  ghost predicate SameBlocks(hdrs: Headers, z: Headers) {
    && hdrs.Keys == z.Keys
    && forall b :: b in hdrs ==>
         if hdrs[b].Used? then z[b] == hdrs[b]
         else z[b].Free? && z[b].nblks == hdrs[b].nblks && z[b].mapped == hdrs[b].mapped
  }

  /** List `l` without its `k`-th block. */
  function Without(l: seq<nat>, k: nat): seq<nat>
    requires k < |l|
  {
    l[..k] + l[k + 1..]
  }

  /** The headers after block `l[k]` has been taken off its list. */
  function Unlinked(hdrs: Headers, l: seq<nat>, k: nat): Headers {
    SetPrev(SetNext(hdrs, At(l, k - 1), At(l, k + 1)), At(l, k + 1), At(l, k - 1))
  }

  lemma UnlinkKeepsList(hdrs: Headers, head: nat, l: seq<nat>, k: nat)
    requires ListOk(hdrs, head, l) && k < |l| && 0 !in hdrs
    ensures ListOk(Unlinked(hdrs, l, k), if k == 0 then At(l, 1) else head, Without(l, k))
  {
    var z, w := Unlinked(hdrs, l, k), Without(l, k);
    forall j | 0 <= j < |w| ensures NodeOk(z, w, j) {
      var i := if j < k then j else j + 1;
      assert w[j] == l[i];
      assert NodeOk(hdrs, l, i);
      assert k > 0 ==> NodeOk(hdrs, l, k - 1);
      assert k + 1 < |l| ==> NodeOk(hdrs, l, k + 1);
    }
  }

  lemma UnlinkKeepsOthers(hdrs: Headers, head: nat, l: seq<nat>, k: nat, head': nat, l': seq<nat>)
    requires ListOk(hdrs, head, l) && k < |l| && 0 !in hdrs && ListOk(hdrs, head', l')
    requires forall b :: b in l ==> b !in l'
    ensures ListOk(Unlinked(hdrs, l, k), head', l')
  {
    var z := Unlinked(hdrs, l, k);
    forall j | 0 <= j < |l'| ensures NodeOk(z, l', j) {
      assert NodeOk(hdrs, l', j);
      assert l'[j] !in l;
    }
  }

  lemma UnlinkKeepsBlocks(hdrs: Headers, l: seq<nat>, k: nat)
    ensures SameBlocks(hdrs, Unlinked(hdrs, l, k))
  {
  }

  /** `GC_remove_from_fl_at` for the `k`-th block of list `i`. */
  lemma RemoveKeepsLinked(hdrs: Headers, heads: seq<nat>, lists: seq<seq<nat>>, home: map<nat, nat>, i: nat, k: nat)
    requires Linked(hdrs, heads, lists, home) && i < |lists| && k < |lists[i]| && 0 !in hdrs
    ensures Linked(Unlinked(hdrs, lists[i], k), heads[i := if k == 0 then At(lists[i], 1) else heads[i]],
                   lists[i := Without(lists[i], k)], home - {lists[i][k]})
    ensures lists[i][k] in home
  {
    var l := lists[i];
    var z, lists', b := Unlinked(hdrs, l, k), lists[i := Without(l, k)], l[k];
    UnlinkKeepsList(hdrs, heads[i], l, k);
    forall j | 0 <= j < |lists| && j != i ensures ListOk(z, heads[j], lists[j]) {
      UnlinkKeepsOthers(hdrs, heads[i], l, k, heads[j], lists[j]);
    }
    WithoutHas(l, k);
    forall c | c in home && c != b ensures c in lists'[home[c]] {
      assert c in lists[home[c]];
    }
  }

  lemma WithoutHas(l: seq<nat>, k: nat)
    requires k < |l| && NoRepeats(l)
    ensures forall b :: b in Without(l, k) <==> b in l && b != l[k]
    ensures forall j :: 0 <= j < |l| - 1 ==> Without(l, k)[j] == l[if j < k then j else j + 1]
  {
    var w := Without(l, k);
    forall b | b in l && b != l[k] ensures b in w {
      var j :| 0 <= j < |l| && l[j] == b;
      assert w[if j < k then j else j - 1] == b;
    }
  }

  /** The headers after block `h` has been put at the front of a list that began with `first`. */
  function Fronted(hdrs: Headers, first: nat, h: nat, nblks: nat, mapped: bool): Headers {
    SetPrev(hdrs[h := Free(nblks, 0, first, mapped)], first, h)
  }

  lemma FrontKeepsList(hdrs: Headers, head: nat, l: seq<nat>, h: nat, nblks: nat, mapped: bool)
    requires ListOk(hdrs, head, l) && 0 !in hdrs && h != 0 && h !in l
    ensures ListOk(Fronted(hdrs, head, h, nblks, mapped), h, [h] + l)
  {
    var z, w := Fronted(hdrs, head, h, nblks, mapped), [h] + l;
    forall j | 0 <= j < |w| ensures NodeOk(z, w, j) {
      if j > 0 {
        assert NodeOk(hdrs, l, j - 1);
      }
      if |l| > 0 {
        assert NodeOk(hdrs, l, 0);
      }
    }
  }

  lemma FrontKeepsOthers(hdrs: Headers, head: nat, l: seq<nat>, h: nat, nblks: nat, mapped: bool, head': nat, l': seq<nat>)
    requires ListOk(hdrs, head, l) && ListOk(hdrs, head', l') && 0 !in hdrs && h !in l'
    requires forall b :: b in l ==> b !in l'
    ensures ListOk(Fronted(hdrs, head, h, nblks, mapped), head', l')
  {
    var z := Fronted(hdrs, head, h, nblks, mapped);
    forall j | 0 <= j < |l'| ensures NodeOk(z, l', j) {
      assert NodeOk(hdrs, l', j);
      assert l'[j] !in l;
    }
  }

  /** `GC_add_to_fl`. */
  lemma AddKeepsLinked(hdrs: Headers, heads: seq<nat>, lists: seq<seq<nat>>, home: map<nat, nat>,
                       i: nat, h: nat, nblks: nat, mapped: bool)
    requires Linked(hdrs, heads, lists, home) && i < |lists| && h !in home && h != 0 && 0 !in hdrs
    ensures Linked(Fronted(hdrs, heads[i], h, nblks, mapped), heads[i := h], lists[i := [h] + lists[i]], home[h := i])
  {
    var z, lists' := Fronted(hdrs, heads[i], h, nblks, mapped), lists[i := [h] + lists[i]];
    FrontKeepsList(hdrs, heads[i], lists[i], h, nblks, mapped);
    forall j | 0 <= j < |lists| && j != i ensures ListOk(z, heads[j], lists[j]) {
      FrontKeepsOthers(hdrs, heads[i], lists[i], h, nblks, mapped, heads[j], lists[j]);
    }
    assert lists'[i][0] == h;
    forall c | c in home ensures c in lists'[home[c]] {
      assert c in lists[home[c]];
    }
  }

  /** List `l` with block `n` in place of its `k`-th. */
  function Put(l: seq<nat>, k: nat, n: nat): seq<nat>
    requires k < |l|
  {
    l[k := n]
  }

  /** The headers after block `n` has taken the place of `l[k]` on its list. */
  function Replaced(hdrs: Headers, l: seq<nat>, k: nat, n: nat, nblks: nat, mapped: bool): Headers {
    SetPrev(SetNext(hdrs[n := Free(nblks, At(l, k - 1), At(l, k + 1), mapped)], At(l, k - 1), n), At(l, k + 1), n)
  }

  lemma ReplaceKeepsList(hdrs: Headers, head: nat, l: seq<nat>, k: nat, n: nat, nblks: nat, mapped: bool)
    requires ListOk(hdrs, head, l) && k < |l| && 0 !in hdrs && n != 0 && n !in l
    ensures ListOk(Replaced(hdrs, l, k, n, nblks, mapped), if k == 0 then n else head, Put(l, k, n))
  {
    var z, w := Replaced(hdrs, l, k, n, nblks, mapped), Put(l, k, n);
    forall j | 0 <= j < |w| ensures NodeOk(z, w, j) {
      assert NodeOk(hdrs, l, j);
      assert k > 0 ==> NodeOk(hdrs, l, k - 1);
      assert k + 1 < |l| ==> NodeOk(hdrs, l, k + 1);
    }
  }

  lemma ReplaceKeepsOthers(hdrs: Headers, head: nat, l: seq<nat>, k: nat, n: nat, nblks: nat, mapped: bool,
                           head': nat, l': seq<nat>)
    requires ListOk(hdrs, head, l) && ListOk(hdrs, head', l') && k < |l| && 0 !in hdrs && n !in l'
    requires forall b :: b in l ==> b !in l'
    ensures ListOk(Replaced(hdrs, l, k, n, nblks, mapped), head', l')
  {
    var z := Replaced(hdrs, l, k, n, nblks, mapped);
    forall j | 0 <= j < |l'| ensures NodeOk(z, l', j) {
      assert NodeOk(hdrs, l', j);
      assert l'[j] !in l;
    }
  }

  /** The first half of `GC_split_block`. */
  lemma ReplaceKeepsLinked(hdrs: Headers, heads: seq<nat>, lists: seq<seq<nat>>, home: map<nat, nat>,
                           i: nat, k: nat, n: nat, nblks: nat, mapped: bool)
    requires Linked(hdrs, heads, lists, home) && i < |lists| && k < |lists[i]| && n !in home && n != 0 && 0 !in hdrs
    ensures Linked(Replaced(hdrs, lists[i], k, n, nblks, mapped), heads[i := if k == 0 then n else heads[i]],
                   lists[i := Put(lists[i], k, n)], (home - {lists[i][k]})[n := i])
    ensures lists[i][k] in home
  {
    var l := lists[i];
    var z, lists', b := Replaced(hdrs, l, k, n, nblks, mapped), lists[i := Put(l, k, n)], l[k];
    ReplaceKeepsList(hdrs, heads[i], l, k, n, nblks, mapped);
    forall j | 0 <= j < |lists| && j != i ensures ListOk(z, heads[j], lists[j]) {
      ReplaceKeepsOthers(hdrs, heads[i], l, k, n, nblks, mapped, heads[j], lists[j]);
    }
    assert lists'[i][k] == n;
    forall c | c in home && c != b ensures c in lists'[home[c]] {
      assert c in lists[home[c]];
      if home[c] == i {
        var j :| 0 <= j < |l| && l[j] == c;
        assert lists'[i][j] == c;
      }
    }
  }

  // -----------------------------------------------------------------------------------
  // Sizes
  // -----------------------------------------------------------------------------------

  function NBlks(hdrs: Headers, b: nat): nat {
    if b in hdrs && hdrs[b].Free? then hdrs[b].nblks else 0
  }

  /** The blocks on a list, all sizes added up. */
  function Sum(hdrs: Headers, l: seq<nat>): nat {
    if l == [] then 0 else NBlks(hdrs, l[0]) + Sum(hdrs, l[1..])
  }

  lemma {:induction false} SumSame(hdrs: Headers, z: Headers, l: seq<nat>)
    requires forall b :: b in l ==> NBlks(hdrs, b) == NBlks(z, b)
    ensures Sum(hdrs, l) == Sum(z, l)
  {
    if l != [] {
      SumSame(hdrs, z, l[1..]);
    }
  }

  lemma {:induction false} SumWithout(hdrs: Headers, l: seq<nat>, k: nat)
    requires k < |l|
    ensures Sum(hdrs, l) == Sum(hdrs, Without(l, k)) + NBlks(hdrs, l[k])
  {
    if k == 0 {
      assert Without(l, k) == l[1..];
    } else {
      SumWithout(hdrs, l[1..], k - 1);
      assert Without(l, k)[1..] == Without(l[1..], k - 1);
    }
  }

  lemma {:induction false} SumReplaced(hdrs: Headers, z: Headers, l: seq<nat>, k: nat, n: nat)
    requires k < |l| && forall j :: 0 <= j < |l| && j != k ==> NBlks(hdrs, l[j]) == NBlks(z, l[j])
    ensures Sum(z, Put(l, k, n)) == Sum(hdrs, l) - NBlks(hdrs, l[k]) + NBlks(z, n)
  {
    if k == 0 {
      assert Put(l, k, n)[1..] == l[1..];
      forall b | b in l[1..] ensures NBlks(hdrs, b) == NBlks(z, b) {
        var j :| 0 <= j < |l[1..]| && l[1..][j] == b;
        assert l[j + 1] == b;
      }
      SumSame(hdrs, z, l[1..]);
    } else {
      forall j | 0 <= j < |l[1..]| && j != k - 1 ensures NBlks(hdrs, l[1..][j]) == NBlks(z, l[1..][j]) {
        assert l[1..][j] == l[j + 1];
      }
      SumReplaced(hdrs, z, l[1..], k - 1, n);
      assert Put(l, k, n)[1..] == Put(l[1..], k - 1, n);
    }
  }
}
