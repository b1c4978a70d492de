/**
 Building the free list inside a new block, word by word: a general loop, and four unrolled ones
 for objects of two and of four words.
 */
module BuildFreeList {

  const HBLK_WORDS: nat := 512

  /** Where the `j`-th object of a block begins. */
  function Off(j: nat, sz: nat): nat {
    j * sz
  }

  function Count(sz: nat): nat
    requires sz > 0
  {
    HBLK_WORDS / sz
  }

  lemma OffNext(j: nat, sz: nat)
    ensures Off(j + 1, sz) == Off(j, sz) + sz
  {
  }

  lemma OffMonotone(i: nat, j: nat, sz: nat)
    requires i < j
    ensures Off(i, sz) + sz <= Off(j, sz)
  {
    var d := j - i - 1;
    assert Off(j, sz) == Off(i, sz) + sz + d * sz;
  }

  lemma LastFits(sz: nat)
    requires 0 < sz <= HBLK_WORDS
    ensures Count(sz) > 0
    ensures Off(Count(sz), sz) <= HBLK_WORDS < Off(Count(sz), sz) + sz
  {
    var n := Count(sz);
    assert n * sz + HBLK_WORDS % sz == HBLK_WORDS;
    assert n == 0 ==> n * sz == 0;
  }

  lemma OffFirst(sz: nat)
    ensures Off(0, sz) == 0 && Off(1, sz) == sz
  {
  }

  /** There are objects left as long as one fits in. */
  lemma BelowCount(k: nat, sz: nat)
    requires 0 < sz <= HBLK_WORDS && Off(k, sz) + sz <= HBLK_WORDS && k <= Count(sz)
    ensures k < Count(sz)
  {
    hide Off, Count;
    LastFits(sz);
  }

  lemma AtCount(k: nat, sz: nat)
    requires 0 < sz <= HBLK_WORDS && Off(k, sz) + sz > HBLK_WORDS && k <= Count(sz)
    ensures k == Count(sz)
  {
    hide Off, Count;
    LastFits(sz);
    if k < Count(sz) {
      OffMonotone(k, Count(sz), sz);
    }
  }

  /** The first `n` objects are linked, each to the one before it, and the first to `list`. */
  ghost predicate Linked(w: seq<int>, base: int, sz: nat, list: int, n: nat) {
    forall j: nat :: j < n ==> LinkOk(w, base, sz, list, j)
  }

  ghost predicate LinkOk(w: seq<int>, base: int, sz: nat, list: int, j: nat) {
    Off(j, sz) < |w| && w[Off(j, sz)] == LinkTo(base, sz, list, j)
  }

  /** Where object `j` is linked to. */
  ghost function LinkTo(base: int, sz: nat, list: int, j: nat): int {
    if j == 0 then list else base + Off(j - 1, sz)
  }

  /** Not the first word of any of the first `n` objects. */
  ghost predicate Inner(p: nat, sz: nat, n: nat) {
    forall j: nat :: j < n ==> Off(j, sz) != p
  }

  /** Words other than links are cleared or as they were. */
  ghost predicate Rest(was: seq<int>, w: seq<int>, sz: nat, n: nat, clear: bool) {
    |w| == |was| && forall p: nat :: p < |w| && Inner(p, sz, n) ==> w[p] == if clear then 0 else was[p]
  }

  /** The first `k` objects are dealt with: they are linked, and their other words cleared, or all others as they were. */
  ghost predicate UpTo(was: seq<int>, w: seq<int>, base: int, sz: nat, list: int, k: nat, clear: bool) {
    && |w| == |was| && Linked(w, base, sz, list, k)
    && forall p: nat :: p < |w| && Inner(p, sz, k) && (clear ==> p < Off(k, sz)) ==> w[p] == if clear then 0 else was[p]
  }

  /** The link of one more object has been written. */
  lemma LinkOneMore(was: seq<int>, w: seq<int>, base: int, sz: nat, list: int, k: nat)
    requires UpTo(was, w, base, sz, list, k, false) && Off(k, sz) < |w| && sz > 0
    ensures UpTo(was, w[Off(k, sz) := LinkTo(base, sz, list, k)], base, sz, list, k + 1, false)
  {
    hide Off, LinkTo;
    var z := w[Off(k, sz) := LinkTo(base, sz, list, k)];
    forall j: nat | j < k + 1 ensures LinkOk(z, base, sz, list, j) {
      if j < k {
        OffMonotone(j, k, sz);
        assert LinkOk(w, base, sz, list, j);
      }
    }
    forall p: nat | p < |z| && Inner(p, sz, k + 1) ensures z[p] == was[p] {
      assert p != Off(k, sz) && Inner(p, sz, k);
    }
  }

  /** One more object has been linked and cleared. */
  lemma ClearOneMore(was: seq<int>, w: seq<int>, z: seq<int>, base: int, sz: nat, list: int, k: nat)
    requires UpTo(was, w, base, sz, list, k, true) && Off(k, sz) + sz <= |w| == |z| && sz > 0
    requires forall p: nat :: p < Off(k, sz) ==> z[p] == w[p]
    requires z[Off(k, sz)] == LinkTo(base, sz, list, k)
    requires forall p: nat :: Off(k, sz) < p < Off(k, sz) + sz ==> z[p] == 0
    ensures UpTo(was, z, base, sz, list, k + 1, true)
  {
    OffNext(k, sz);
    hide Off, LinkTo;
    forall j: nat | j < k + 1 ensures LinkOk(z, base, sz, list, j) {
      if j < k {
        OffMonotone(j, k, sz);
        assert LinkOk(w, base, sz, list, j);
      }
    }
    forall p: nat | p < |z| && Inner(p, sz, k + 1) && p < Off(k + 1, sz) ensures z[p] == 0 {
      assert p != Off(k, sz) && Inner(p, sz, k);
    }
  }

  lemma NothingYet(was: seq<int>, base: int, sz: nat, list: int, clear: bool)
    ensures UpTo(was, was, base, sz, list, 0, clear)
  {
  }

  /** Objects of two or four words fill a block. */
  lemma BlockIsFull(was: seq<int>, w: seq<int>, base: int, sz: nat, list: int, k: nat, clear: bool)
    requires UpTo(was, w, base, sz, list, k, clear) && sz in {2, 4} && Off(k, sz) == HBLK_WORDS == |w|
    ensures k == Count(sz) && Linked(w, base, sz, list, k) && Rest(was, w, sz, k, clear)
    ensures Off(k - 1, sz) == HBLK_WORDS - sz
  {
  }

  /** The first link is the last to be written. */
  lemma SetFirst(was: seq<int>, w: seq<int>, base: int, sz: nat, first: int, list: int, k: nat)
    requires UpTo(was, w, base, sz, first, k, false) && 0 < k && 0 < |w| && sz > 0
    ensures UpTo(was, w[0 := list], base, sz, list, k, false)
  {
    OffFirst(sz);
    hide Off;
    var z := w[0 := list];
    forall j: nat | j < k ensures LinkOk(z, base, sz, list, j) {
      assert LinkOk(w, base, sz, first, j);
      if j > 0 {
        OffMonotone(0, j, sz);
      }
    }
    assert forall p: nat :: p < |z| && Inner(p, sz, k) ==> p != Off(0, sz);
  }

  /** The addresses that one comes by when following `n` links from `p`, and where that leads. */
  ghost function Follow(w: seq<int>, base: int, p: int, n: nat): (r: (seq<int>, int))
    decreases n
  {
    if n == 0 || !(0 <= p - base < |w|) then ([], p)
    else var (l, end) := Follow(w, base, w[p - base], n - 1); ([p] + l, end)
  }

  /** From the last object, the links lead through all objects down to the first, and on to the list there was. */
  lemma {:induction false} FollowLinked(w: seq<int>, base: int, sz: nat, list: int, n: nat, k: nat)
    requires Linked(w, base, sz, list, n) && k < n
    ensures var (l, end) := Follow(w, base, base + Off(k, sz), k + 1);
      end == list && |l| == k + 1 && forall i :: 0 <= i <= k ==> l[i] == base + Off(k - i, sz)
  {
    assert LinkOk(w, base, sz, list, k);
    if k > 0 {
      FollowLinked(w, base, sz, list, n, k - 1);
    }
  }

  class Block {
    const words: array<int>
    /** The address of the block. */
    const base: int

    ghost predicate Valid() {
      words.Length == HBLK_WORDS
    }

    /** `GC_build_fl`. */
    method BuildFl(sz: nat, clear: bool, list: int) returns (p: int)
      requires Valid() && 0 < sz <= HBLK_WORDS
      modifies words
      ensures Linked(words[..], base, sz, list, Count(sz)) && p == base + Off(Count(sz) - 1, sz)
      ensures Rest(old(words[..]), words[..], sz, Count(sz), clear)
    {
      if sz == 2 {
        if clear {
          p := BuildFlClear2(list);
        } else {
          p := BuildFl2(list);
        }
      } else if sz == 4 {
        if clear {
          p := BuildFlClear4(list);
        } else {
          p := BuildFl4(list);
        }
      } else {
        p := BuildFlGeneral(sz, clear, list);
      }
    }

    /** Any size: one object after the other, and the first one last. */
    method BuildFlGeneral(sz: nat, clear: bool, list: int) returns (r: int)
      requires Valid() && 0 < sz <= HBLK_WORDS
      modifies words
      ensures Linked(words[..], base, sz, list, Count(sz)) && r == base + Off(Count(sz) - 1, sz)
      ensures Rest(old(words[..]), words[..], sz, Count(sz), clear)
    {
      hide Off, Count, Inner, Linked;
      if clear {
        forall i | 0 <= i < HBLK_WORDS {
          words[i] := 0;
        }
      }
      ghost var was := words[..];
      LastFits(sz);
      var p := LinkUp(sz);
      ghost var linked := words[..];
      words[0] := list;
      r := base + p;
      SetFirst(was, linked, base, sz, was[0], list, Count(sz));
      assert words[..] == linked[0 := list];
    }

    /** Links every object but the first to the one before it; gives where the last one is. */
    method LinkUp(sz: nat) returns (p: nat)
      requires Valid() && 0 < sz <= HBLK_WORDS
      modifies words
      ensures UpTo(old(words[..]), words[..], base, sz, old(words[0]), Count(sz), false)
      ensures Count(sz) > 0 && p == Off(Count(sz) - 1, sz)
    {
      hide Off, Count, UpTo;
      ghost var was, k := words[..], 1;
      OffFirst(sz);
      LastFits(sz);
      NothingYet(was, base, sz, was[0], false);
      LinkOneMore(was, was, base, sz, was[0], 0);
      assert was[Off(0, sz) := LinkTo(base, sz, was[0], 0)] == was;
      var prev, lastObject := 0, HBLK_WORDS - sz;
      p := sz;
      while p <= lastObject
        invariant 1 <= k <= Count(sz) && p == Off(k, sz) && prev == Off(k - 1, sz)
        invariant UpTo(was, words[..], base, sz, was[0], k, false)
        decreases HBLK_WORDS - p
      {
        BelowCount(k, sz);
        LinkOneMore(was, words[..], base, sz, was[0], k);
        OffNext(k, sz);
        ghost var w := words[..];
        words[p] := base + prev;
        assert words[..] == w[p := LinkTo(base, sz, was[0], k)];
        prev := p;
        p := p + sz;
        k := k + 1;
      }
      AtCount(k, sz);
      OffNext(k - 1, sz);
      p := p - sz;
    }

    /** An object of two words is linked and cleared. */
    method Clear2(p: nat, link: int, ghost was: seq<int>, ghost list: int, ghost k: nat)
      requires Valid() && p == Off(k, 2) && p + 2 <= HBLK_WORDS && link == LinkTo(base, 2, list, k)
      requires UpTo(was, words[..], base, 2, list, k, true)
      modifies words
      ensures UpTo(was, words[..], base, 2, list, k + 1, true)
    {
      hide Off, UpTo, LinkTo;
      ghost var w := words[..];
      words[p] := link;
      words[p + 1] := 0;
      ClearOneMore(was, w, words[..], base, 2, list, k);
    }

    /** `GC_build_fl_clear2`. */
    method BuildFlClear2(list: int) returns (r: int)
      requires Valid()
      modifies words
      ensures Linked(words[..], base, 2, list, Count(2)) && r == base + Off(Count(2) - 1, 2)
      ensures Rest(old(words[..]), words[..], 2, Count(2), true)
    {
      hide UpTo, Linked, Rest;
      ghost var was, k := words[..], 2;
      NothingYet(was, base, 2, list, true);
      Clear2(0, list, was, list, 0);
      Clear2(2, base, was, list, 1);
      var p := 4;
      while p < HBLK_WORDS
        invariant 4 <= p <= HBLK_WORDS && p % 4 == 0 && p == Off(k, 2)
        invariant UpTo(was, words[..], base, 2, list, k, true)
      {
        Clear2(p, base + (p - 2), was, list, k);
        Clear2(p + 2, base + p, was, list, k + 1);
        p := p + 4;
        k := k + 2;
      }
      r := base + (p - 2);
      BlockIsFull(was, words[..], base, 2, list, k, true);
    }

    /** The link of one more object is written. */
    method WriteLink(p: nat, link: int, ghost was: seq<int>, ghost sz: nat, ghost list: int, ghost k: nat)
      requires Valid() && sz > 0 && p == Off(k, sz) && p < HBLK_WORDS && link == LinkTo(base, sz, list, k)
      requires UpTo(was, words[..], base, sz, list, k, false)
      modifies words
      ensures UpTo(was, words[..], base, sz, list, k + 1, false)
    {
      hide Off, UpTo, LinkTo;
      ghost var w := words[..];
      LinkOneMore(was, w, base, sz, list, k);
      words[p] := link;
      assert words[..] == w[p := link];
    }

    /** `GC_build_fl2`. */
    method BuildFl2(list: int) returns (r: int)
      requires Valid()
      modifies words
      ensures Linked(words[..], base, 2, list, Count(2)) && r == base + Off(Count(2) - 1, 2)
      ensures Rest(old(words[..]), words[..], 2, Count(2), false)
    {
      hide UpTo, Linked, Rest;
      ghost var was, k := words[..], 2;
      NothingYet(was, base, 2, list, false);
      WriteLink(0, list, was, 2, list, 0);
      WriteLink(2, base, was, 2, list, 1);
      var p := 4;
      while p < HBLK_WORDS
        invariant 4 <= p <= HBLK_WORDS && p % 4 == 0 && p == Off(k, 2)
        invariant UpTo(was, words[..], base, 2, list, k, false)
      {
        WriteLink(p, base + (p - 2), was, 2, list, k);
        WriteLink(p + 2, base + p, was, 2, list, k + 1);
        p := p + 4;
        k := k + 2;
      }
      r := base + (p - 2);
      BlockIsFull(was, words[..], base, 2, list, k, false);
    }

    /** An object of four words is linked and cleared. */
    method Clear4(p: nat, link: int, ghost was: seq<int>, ghost list: int, ghost k: nat)
      requires Valid() && p == Off(k, 4) && p + 4 <= HBLK_WORDS && link == LinkTo(base, 4, list, k)
      requires UpTo(was, words[..], base, 4, list, k, true)
      modifies words
      ensures UpTo(was, words[..], base, 4, list, k + 1, true)
    {
      hide Off, UpTo, LinkTo;
      ghost var w := words[..];
      words[p] := link;
      words[p + 1] := 0;
      words[p + 2] := 0;
      words[p + 3] := 0;
      ClearOneMore(was, w, words[..], base, 4, list, k);
    }

    /** `GC_build_fl_clear4`. */
    method BuildFlClear4(list: int) returns (r: int)
      requires Valid()
      modifies words
      ensures Linked(words[..], base, 4, list, Count(4)) && r == base + Off(Count(4) - 1, 4)
      ensures Rest(old(words[..]), words[..], 4, Count(4), true)
    {
      hide UpTo, Linked, Rest;
      ghost var was, k := words[..], 1;
      NothingYet(was, base, 4, list, true);
      Clear4(0, list, was, list, 0);
      var p := 4;
      while p < HBLK_WORDS
        invariant 4 <= p <= HBLK_WORDS && p % 4 == 0 && p == Off(k, 4)
        invariant UpTo(was, words[..], base, 4, list, k, true)
      {
        Clear4(p, base + (p - 4), was, list, k);
        p := p + 4;
        k := k + 1;
      }
      r := base + (p - 4);
      BlockIsFull(was, words[..], base, 4, list, k, true);
    }

    /** `GC_build_fl4`. */
    method BuildFl4(list: int) returns (r: int)
      requires Valid()
      modifies words
      ensures Linked(words[..], base, 4, list, Count(4)) && r == base + Off(Count(4) - 1, 4)
      ensures Rest(old(words[..]), words[..], 4, Count(4), false)
    {
      hide UpTo, Linked, Rest;
      ghost var was, k := words[..], 2;
      NothingYet(was, base, 4, list, false);
      WriteLink(0, list, was, 4, list, 0);
      WriteLink(4, base, was, 4, list, 1);
      var p := 8;
      while p < HBLK_WORDS
        invariant 8 <= p <= HBLK_WORDS && p % 8 == 0 && p == Off(k, 4)
        invariant UpTo(was, words[..], base, 4, list, k, false)
      {
        WriteLink(p, base + (p - 4), was, 4, list, k);
        WriteLink(p + 4, base + p, was, 4, list, k + 1);
        p := p + 8;
        k := k + 2;
      }
      r := base + (p - 4);
      BlockIsFull(was, words[..], base, 4, list, k, false);
    }
  }
}
