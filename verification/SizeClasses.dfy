/**
 The map from requested sizes to sizes of small objects, which is filled in on demand
 so that only few distinct sizes are in use.
 */
module SizeClasses {
  import opened Arithmetic

  const GRANULE_BYTES: nat := 16
  const MAXOBJBYTES: nat := 2048
  const MAXOBJGRANULES: nat := 128
  /** Granules in a heap block. */
  const HBLK_GRANULES: nat := 256
  const TINY_FREELISTS: nat := 25

  /** How many granules hold `lb` bytes and the extra ones that let pointers past the end keep an object alive. */
  function RoundedUpGranules(lb: nat, extra: nat): (g: nat)
    ensures GRANULE_BYTES * g >= lb + extra && GRANULE_BYTES * g < lb + extra + GRANULE_BYTES
  {
    (lb + GRANULE_BYTES - 1 + extra) / GRANULE_BYTES
  }

  function RoundedDownToEven(n: nat): (r: nat)
    ensures r % 2 == 0 && r <= n < r + 2
  {
    n - n % 2
  }

  /** A filled entry is a size of small objects that holds the request, and is at most about twice as large. */
  ghost predicate Holds(granules: nat, j: nat, extra: nat) {
    && 0 < granules <= MAXOBJGRANULES
    && j + extra <= GRANULE_BYTES * granules <= 2 * j + GRANULE_BYTES
  }

  ghost predicate Sound(m: seq<nat>, extra: nat) {
    && |m| == MAXOBJBYTES + 1
    && (forall j: nat :: j < |m| && m[j] != 0 ==> Holds(m[j], j, extra))
  }

  /** The requests that are served from the free lists of tiny objects are never looked up in vain. */
  ghost predicate TinyFilled(m: seq<nat>, extra: nat) {
    && |m| == MAXOBJBYTES + 1
    && (forall j: nat :: j <= GRANULE_BYTES * (TINY_FREELISTS - 1) - extra ==> m[j] != 0)
  }

  ghost predicate EndOfRun(m: seq<nat>, n: nat)
    requires n < |m|
  {
    m[n] != 0 && (n + 1 < |m| ==> m[n + 1] == 0)
  }

  ghost predicate LongRun(m: seq<nat>, n: nat)
    requires n < |m|
  {
    forall k: nat :: n - n / 4 < k <= n ==> m[k] != 0
  }

  /** A filled-in section ending at `n` has at least a quarter of `n` as its length. */
  ghost predicate RunsAreLong(m: seq<nat>) {
    forall n: nat :: n < |m| && EndOfRun(m, n) ==> LongRun(m, n)
  }

  ghost predicate MapInv(m: seq<nat>, extra: nat) {
    Sound(m, extra) && TinyFilled(m, extra) && RunsAreLong(m)
  }

  /** `granules` is what is left of the wanted size when objects are made as large as fits the same number of them. */
  ghost predicate SameNumberFits(wanted: nat, granules: nat) {
    && 0 < wanted <= granules <= MAXOBJGRANULES
    && HBLK_GRANULES / granules == HBLK_GRANULES / wanted
    && granules % 2 == 0
    && (forall g: nat :: granules < g && g % 2 == 0 ==> HBLK_GRANULES / g < HBLK_GRANULES / wanted)
  }

  // -----------------------------------------------------------------------------------
  // Arithmetic of one extension
  // -----------------------------------------------------------------------------------

  /** The size chosen is not below the wanted one, and bounds on how much larger it is. */
  lemma Enlarged(wanted: nat, granules: nat)
    requires 0 < wanted <= MAXOBJGRANULES && wanted % 2 == 0
    requires granules == RoundedDownToEven(HBLK_GRANULES / (HBLK_GRANULES / wanted))
    ensures SameNumberFits(wanted, granules) && NotMuchLarger(wanted, granules)
  {
    var n := HBLK_GRANULES / wanted;
    QuotientBounds(HBLK_GRANULES, wanted);
    assert n >= 2 by { assert n < 2 ==> n * wanted <= wanted; }
    var q := HBLK_GRANULES / n;
    QuotientBounds(HBLK_GRANULES, n);
    EnlargedBy(wanted, granules, q, n);
  }

  ghost predicate NotMuchLarger(wanted: nat, granules: nat) {
    3 * granules < 4 * wanted || (granules == MAXOBJGRANULES && wanted >= 86)
  }

  lemma EnlargedBy(wanted: nat, granules: nat, q: nat, n: nat)
    requires 0 < wanted <= MAXOBJGRANULES && wanted % 2 == 0 && n == HBLK_GRANULES / wanted && n >= 2
    requires n * wanted <= HBLK_GRANULES < n * wanted + wanted
    requires n * q <= HBLK_GRANULES < n * q + n && granules == RoundedDownToEven(q)
    ensures SameNumberFits(wanted, granules) && NotMuchLarger(wanted, granules)
  {
    assert (n + 1) * wanted == n * wanted + wanted && n * (q + 1) == n * q + n;
    assert q < wanted ==> n * (q + 1) <= n * wanted by { if q < wanted { MulMonotone(n, q + 1, wanted); } }
    MulMonotone(q, 2, n);
    SameQuotient(wanted, granules, q, n);
    forall g: nat | granules < g && g % 2 == 0 ensures HBLK_GRANULES / g < n {
      FewerFit(q, n, g);
    }
    NotMuch(wanted, granules, n);
  }

  lemma NotMuch(wanted: nat, granules: nat, n: nat)
    requires n >= 2 && wanted <= granules <= MAXOBJGRANULES && wanted % 2 == 0
    requires n * granules <= HBLK_GRANULES < n * wanted + wanted
    requires n == 2 ==> granules == MAXOBJGRANULES
    ensures NotMuchLarger(wanted, granules)
  {
    assert n * (granules - wanted) == n * granules - n * wanted;
    MulMonotone(granules - wanted, if n >= 3 then 3 else n, n);
  }

  lemma SameQuotient(wanted: nat, granules: nat, q: nat, n: nat)
    requires 0 < wanted <= granules <= q && n * q <= HBLK_GRANULES < (n + 1) * wanted
    ensures HBLK_GRANULES / granules == n && n * granules <= HBLK_GRANULES
  {
    MulMonotone(n, granules, q);
    MulMonotone(n + 1, wanted, granules);
    QuotientIs(HBLK_GRANULES, granules, n);
  }

  lemma FewerFit(q: nat, n: nat, g: nat)
    requires q < g && HBLK_GRANULES < (q + 1) * n
    ensures HBLK_GRANULES / g < n
  {
    QuotientBounds(HBLK_GRANULES, g);
    var p := HBLK_GRANULES / g;
    assert p >= n ==> p * g >= n * (q + 1) by { MulMonotone(n, q + 1, g); if p >= n { MulMonotone(g, n, p); } }
  }

  /** The bytes an extension aims at, for the request that found its entry empty. */
  lemma Target(i: nat, extra: nat)
    requires extra <= 1 && GRANULE_BYTES * (TINY_FREELISTS - 1) - extra < i <= MAXOBJBYTES - extra
    ensures var g := RoundedUpGranules(i, extra); var b := GRANULE_BYTES * g;
      && TINY_FREELISTS <= g <= MAXOBJGRANULES && b / 4 == 4 * g && b / 8 == 2 * g && b - b / 8 < i <= b - extra
  {
  }

  /** The new size holds every request that is mapped to it, and none is mapped to far more than it needs. */
  lemma NewSizeHolds(i: nat, extra: nat, low: nat, wanted: nat, granules: nat)
    requires extra <= 1 && GRANULE_BYTES * (TINY_FREELISTS - 1) - extra < i <= MAXOBJBYTES - extra
    requires SameNumberFits(wanted, granules) && NotMuchLarger(wanted, granules)
    requires var orig := RoundedUpGranules(i, extra);
      && low <= i && orig <= wanted
      && (|| (low >= 12 * orig && wanted <= orig + 1)
          || (low >= 14 * orig && wanted <= orig + 1)
          || (low >= 14 * orig && wanted <= RoundedUpGranules(low, extra) * 9 / 8 + 1))
    ensures i <= GRANULE_BYTES * granules - extra <= MAXOBJBYTES
    ensures forall j: nat :: low <= j <= GRANULE_BYTES * granules - extra ==> Holds(granules, j, extra)
  {
    Target(i, extra);
    assert GRANULE_BYTES * granules <= 2 * low + GRANULE_BYTES;
  }

  // -----------------------------------------------------------------------------------
  // The map
  // -----------------------------------------------------------------------------------

  /** Whether sizes down to seven eighths of `orig` granules are still without an entry. */
  predicate SparseBelow(m: seq<nat>, orig: nat) {
    14 * orig < |m| && m[14 * orig] == 0
  }

  /**
   Where an extension for a request of `orig` granules begins: at the first gap, from a quarter
   below if much is empty there, and otherwise from an eighth below.
   */
  ghost predicate BeginsAt(m: seq<nat>, orig: nat, low: nat) {
    && low < |m| && m[low] == 0
    && var from := if SparseBelow(m, orig) then 12 * orig else 14 * orig + 1;
       from <= low && forall k: nat :: from <= k < low ==> m[k] != 0
  }

  /** The size it aims at: the one asked for, or in denser surroundings nine eighths of the smallest one it will serve. */
  function Aim(m: seq<nat>, orig: nat, low: nat, extra: nat): (g: nat)
    ensures g >= orig
  {
    var smallest := RoundedUpGranules(low, extra);
    if SparseBelow(m, orig) || smallest + smallest / 8 < orig then orig else smallest + smallest / 8
  }

  /** The size aimed at, made even, unless the largest small size is nearer. */
  function Wanted(g: nat): nat {
    if g < MAXOBJGRANULES then RoundedDownToEven(g + 1) else MAXOBJGRANULES
  }

  /** The map after the entries from `low` to `high` have been set. */
  ghost predicate FilledIn(was: seq<nat>, now: seq<nat>, low: nat, high: int, granules: nat) {
    && |now| == |was|
    && (forall j: nat :: j < |was| ==> now[j] == if low <= j <= high then granules else was[j])
  }

  /** Filling a section keeps runs long when what lies before it is long enough. */
  lemma FillKeepsRunsLong(was: seq<nat>, now: seq<nat>, low: nat, high: nat, granules: nat)
    requires RunsAreLong(was) && FilledIn(was, now, low, high, granules) && granules != 0
    requires low <= high < |was|
    requires (exists m: nat :: m + 1 == low && EndOfRun(was, m))
          || (forall k: nat :: high - high / 4 < k < low ==> was[k] != 0)
    ensures RunsAreLong(now)
  {
    forall n: nat | n < |now| && EndOfRun(now, n) ensures LongRun(now, n) {
      if n == high {
        if m: nat :| m + 1 == low && EndOfRun(was, m) {
          assert LongRun(was, m);
          assert m - m / 4 <= n - n / 4;
        }
      } else {
        assert n + 1 != low && !(low <= n < high);
        assert EndOfRun(was, n);
        assert LongRun(was, n);
      }
    }
  }

  class SizeMap {
    /** `GC_size_map`: zero where not yet filled in. */
    const map_: array<nat>
    /** `EXTRA_BYTES`. */
    const extra: nat

    ghost predicate Valid()
      reads map_
    {
      map_.Length == MAXOBJBYTES + 1 && extra <= 1 && MapInv(map_[..], extra)
    }

    /** `GC_init_size_map`. */
    constructor (allInterior: bool)
      ensures Valid() && fresh(map_) && extra == (if allInterior then 1 else 0)
      ensures forall j :: GRANULE_BYTES * (TINY_FREELISTS - 1) - extra < j <= MAXOBJBYTES ==> map_[j] == 0
    {
      map_ := new nat[MAXOBJBYTES + 1](_ => 0);
      extra := if allInterior then 1 else 0;
      new;
      map_[0] := 1;
      var i := 1;
      while i <= GRANULE_BYTES * (TINY_FREELISTS - 1) - extra
        invariant 1 <= i <= GRANULE_BYTES * (TINY_FREELISTS - 1) - extra + 1
        invariant forall j: nat :: j < i ==> Holds(map_[j], j, extra)
        invariant forall j: nat :: i <= j <= MAXOBJBYTES ==> map_[j] == 0
      {
        map_[i] := RoundedUpGranules(i, extra);
        i := i + 1;
      }
      ghost var m := map_[..];
      assert forall n: nat :: n < |m| && EndOfRun(m, n) ==> n == GRANULE_BYTES * (TINY_FREELISTS - 1) - extra;
    }

    /** The first empty entry at or after `from`. */
    method FirstEmpty(from: nat, ghost upTo: nat) returns (low: nat)
      requires from <= upTo < map_.Length && map_[upTo] == 0
      ensures from <= low <= upTo && map_[low] == 0
      ensures forall j: nat :: from <= j < low ==> map_[j] != 0
    {
      low := from;
      while map_[low] != 0
        invariant from <= low <= upTo
        invariant forall j: nat :: from <= j < low ==> map_[j] != 0
        decreases upTo - low
      {
        low := low + 1;
      }
    }

    /** `GC_extend_size_map`. */
    method Extend(i: nat) returns (ghost low: nat, ghost wanted: nat, granules: nat)
      requires Valid() && i <= MAXOBJBYTES - extra && map_[i] == 0
      modifies map_
      ensures Valid() && map_[i] == granules
      ensures SameNumberFits(wanted, granules) && GRANULE_BYTES * wanted >= i + extra
      ensures var orig := RoundedUpGranules(i, extra);
        BeginsAt(old(map_[..]), orig, low) && wanted == Wanted(Aim(old(map_[..]), orig, low, extra))
      ensures low <= i && FilledIn(old(map_[..]), map_[..], low, GRANULE_BYTES * granules - extra, granules)
      ensures old(map_[low]) == 0
    {
      hide RunsAreLong, LongRun, SameNumberFits, Holds;
      ghost var was := map_[..];
      var lo, g := Choose(i);
      granules, wanted := Enlarge(g);
      NewSizeHolds(i, extra, lo, wanted, granules);
      low := lo;
      Fill(lo, GRANULE_BYTES * granules - extra, granules);
      FillKeepsRunsLong(was, map_[..], low, GRANULE_BYTES * granules - extra, granules);
    }

    /** The size for objects of `g` granules: even, and as large as fits the same number of them. */
    method Enlarge(g: nat) returns (granules: nat, ghost wanted: nat)
      requires 0 < g
      ensures wanted == Wanted(g)
      ensures SameNumberFits(wanted, granules) && NotMuchLarger(wanted, granules)
    {
      granules := RoundedDownToEven(g + 1);
      if granules > MAXOBJGRANULES {
        granules := MAXOBJGRANULES;
      }
      wanted := granules;
      var objects := HBLK_GRANULES / granules;
      Enlarged(wanted, RoundedDownToEven(HBLK_GRANULES / objects));
      granules := RoundedDownToEven(HBLK_GRANULES / objects);
    }

    method Fill(from: nat, high: nat, granules: nat)
      requires from <= high < map_.Length
      modifies map_
      ensures FilledIn(old(map_[..]), map_[..], from, high, granules)
    {
      var low := from;
      while low <= high
        invariant from <= low <= high + 1
        invariant forall j: nat :: j < map_.Length ==> map_[j] == if from <= j < low then granules else old(map_[j])
      {
        map_[low] := granules;
        low := low + 1;
      }
    }

    /** Where an extension for `i` begins, and the size it would like. */
    method Choose(i: nat) returns (low: nat, g: nat)
      requires Valid() && i <= MAXOBJBYTES - extra && map_[i] == 0
      ensures GRANULE_BYTES * (TINY_FREELISTS - 1) - extra < low <= i && map_[low] == 0
      ensures var orig := RoundedUpGranules(i, extra);
        && BeginsAt(map_[..], orig, low) && g == Aim(map_[..], orig, low, extra)
        && (|| (low >= 12 * orig && g == orig && forall k: nat :: 12 * orig <= k < low ==> map_[k] != 0)
            || (low > 14 * orig && EndOfRun(map_[..], low - 1)
                && (g == orig || g == RoundedUpGranules(low, extra) + RoundedUpGranules(low, extra) / 8)))
    {
      Target(i, extra);
      g := RoundedUpGranules(i, extra);
      var orig := g;
      var bytes := GRANULE_BYTES * g;
      var smaller := bytes - bytes / 8;
      if map_[smaller] == 0 {
        low := FirstEmpty(bytes - bytes / 4, smaller);
      } else {
        low := FirstEmpty(smaller + 1, i);
        g := RoundedUpGranules(low, extra);
        g := g + g / 8;
        if g < orig {
          g := orig;
        }
      }
    }

    /** The lookup of a request in `GC_generic_malloc_inner`. */
    method Lookup(lb: nat) returns (granules: nat)
      requires Valid() && lb <= MAXOBJBYTES - extra
      modifies map_
      ensures Valid() && granules == map_[lb] && Holds(granules, lb, extra)
      ensures old(map_[lb]) != 0 ==> map_[..] == old(map_[..])
      ensures forall j: nat :: j < map_.Length && old(map_[j]) != 0 ==> map_[j] != 0
    {
      granules := map_[lb];
      if granules == 0 {
        ghost var low, wanted, g := Extend(lb);
        granules := map_[lb];
      }
    }

    /** Whatever is asked for, in whatever order. */
    method Serve(requests: seq<nat>) returns (sizes: seq<nat>)
      requires Valid() && forall r :: r in requests ==> r <= MAXOBJBYTES - extra
      modifies map_
      ensures Valid() && |sizes| == |requests|
      ensures forall k :: 0 <= k < |sizes| ==> Holds(sizes[k], requests[k], extra)
      ensures forall r :: r in requests ==> map_[r] != 0
    {
      sizes := [];
      while |sizes| < |requests|
        invariant Valid() && |sizes| <= |requests|
        invariant forall k :: 0 <= k < |sizes| ==> Holds(sizes[k], requests[k], extra) && map_[requests[k]] != 0
      {
        var r := requests[|sizes|];
        assert r in requests;
        var g := Lookup(r);
        sizes := sizes + [g];
      }
    }
  }
}
