/**
 Interval arithmetic on address ranges: the table of ranges that are excluded from the static
 roots, and the parts of writable mappings that do not belong to the collector's own memory.
 */
module StaticRanges {

  const MAX_EXCLUSIONS: nat := 512

  /** The addresses from `start` up to but not including `end`. */
  datatype Range = Range(start: nat, end: nat)

  predicate Has(r: Range, a: nat) {
    r.start <= a < r.end
  }

  ghost predicate Covers(rs: seq<Range>, a: nat) {
    exists i :: 0 <= i < |rs| && Has(rs[i], a)
  }

  /** Ascending ranges that are not empty and do not overlap. */
  ghost predicate Ascending(rs: seq<Range>) {
    && (forall i :: 0 <= i < |rs| ==> rs[i].start < rs[i].end)
    && forall i, j :: 0 <= i < j < |rs| ==> rs[i].end <= rs[j].start
  }

  lemma CoversAppend(rs: seq<Range>, r: Range)
    ensures forall a: nat :: Covers(rs + [r], a) <==> (Covers(rs, a) || Has(r, a))
  {
    assert (rs + [r])[|rs|] == r;
    forall a: nat | Covers(rs, a) ensures Covers(rs + [r], a) {
      var i :| 0 <= i < |rs| && Has(rs[i], a);
      assert (rs + [r])[i] == rs[i];
    }
  }

  // -----------------------------------------------------------------------------------
  // The exclusion table
  // -----------------------------------------------------------------------------------

  /** `Overlap` and `Full` abort the program. */
  datatype Outcome = Excluded | Overlap | Full

  lemma CoversInsert(rs: seq<Range>, k: nat, r: Range)
    requires k <= |rs|
    ensures forall a: nat :: Covers(rs[..k] + [r] + rs[k..], a) <==> (Covers(rs, a) || Has(r, a))
  {
    var zs := rs[..k] + [r] + rs[k..];
    assert zs[k] == r;
    forall a: nat | Covers(rs, a) ensures Covers(zs, a) {
      var i :| 0 <= i < |rs| && Has(rs[i], a);
      assert zs[if i < k then i else i + 1] == rs[i];
    }
    forall a: nat | Covers(zs, a) && !Has(r, a) ensures Covers(rs, a) {
      var i :| 0 <= i < |zs| && Has(zs[i], a);
      assert rs[if i < k then i else i - 1] == zs[i];
    }
  }

  lemma CoversExtend(rs: seq<Range>, k: nat, r: Range)
    requires k < |rs| && r.start <= rs[k].start == r.end && rs[k].start <= rs[k].end
    ensures forall a: nat :: Covers(rs[k := Range(r.start, rs[k].end)], a) <==> (Covers(rs, a) || Has(r, a))
  {
    var zs := rs[k := Range(r.start, rs[k].end)];
    assert forall i :: 0 <= i < |rs| && i != k ==> zs[i] == rs[i];
    forall a: nat | Covers(rs, a) || Has(r, a) ensures Covers(zs, a) {
      if Has(r, a) {
        assert Has(zs[k], a);
      } else {
        var i :| 0 <= i < |rs| && Has(rs[i], a);
        assert Has(zs[i], a);
      }
    }
  }

  /** What the search finds: `k` is the first range that ends behind `a`, or the table's length. */
  ghost predicate IsNext(rs: seq<Range>, a: nat, k: nat) {
    && k <= |rs|
    && (forall i :: 0 <= i < k ==> rs[i].end <= a)
    && (k < |rs| ==> rs[k].end > a)
  }

  /** A range meets a sorted table exactly if it meets the first range that ends behind its start. */
  lemma MeetsOnlyNext(rs: seq<Range>, r: Range, k: nat)
    requires Ascending(rs) && r.start < r.end && IsNext(rs, r.start, k)
    ensures (exists a: nat :: Covers(rs, a) && Has(r, a)) <==> k < |rs| && rs[k].start < r.end
  {
    if k < |rs| && rs[k].start < r.end {
      var a := if rs[k].start < r.start then r.start else rs[k].start;
      assert Has(rs[k], a) && Has(r, a);
      assert Covers(rs, a);
    } else {
      forall a: nat, i | 0 <= i < |rs| && Has(r, a) ensures !Has(rs[i], a) {
        assert i > k ==> rs[k].end <= rs[i].start;
      }
    }
  }

  lemma NextBegins(rs: seq<Range>, r: Range, k: nat)
    requires Ascending(rs) && r.start < r.end && IsNext(rs, r.start, k)
    ensures (k < |rs| && rs[k].start < r.end) || (BeginsAt(rs, r.end) <==> k < |rs| && rs[k].start == r.end)
  {
    if i :| 0 <= i < |rs| && rs[i].start == r.end {
      assert k < i ==> rs[k].end <= rs[i].start;
    }
  }

  ghost predicate BeginsAt(rs: seq<Range>, a: nat) {
    exists i :: 0 <= i < |rs| && rs[i].start == a
  }

  class ExclusionTable {
    const table: array<Range>
    var n: nat

    ghost predicate Fits()
      reads this`n
    {
      n <= table.Length == MAX_EXCLUSIONS
    }

    ghost function Contents(): seq<Range>
      requires Fits()
      reads this`n, table
    {
      table[..n]
    }

    ghost predicate Valid()
      reads this`n, table
    {
      Fits() && Ascending(Contents())
    }

    constructor ()
      ensures Valid() && fresh(table) && Contents() == []
    {
      table := new Range[MAX_EXCLUSIONS](i => Range(0, 0));
      n := 0;
    }

    /** `GC_next_exclusion`, by binary search; `n` if there is none. */
    method NextExclusion(a: nat) returns (k: nat)
      requires Valid() && n > 0
      ensures IsNext(Contents(), a, k)
    {
      var low, high := 0, n - 1;
      ghost var rs := Contents();
      while high > low
        invariant 0 <= low <= high < n
        invariant forall i :: 0 <= i < low ==> rs[i].end <= a
        invariant high < n - 1 ==> rs[high].end > a
        decreases high - low
      {
        var mid := (low + high) / 2;
        if table[mid].end <= a {
          assert forall i :: 0 <= i < mid ==> rs[i].end <= rs[mid].start;
          low := mid + 1;
        } else {
          high := mid;
        }
      }
      k := if table[low].end <= a then n else low;
    }

    /** The ranges from position `k` on move up by one, and `r` takes position `k`. */
    method Insert(k: nat, r: Range)
      requires Fits() && k <= n < MAX_EXCLUSIONS
      modifies this`n, table
      ensures Fits() && Contents() == old(Contents()[..k] + [r] + Contents()[k..])
    {
      ghost var rs := Contents();
      var i := n;
      while i > k
        invariant Fits() && n == old(n) && k <= i <= n
        invariant forall j :: 0 <= j < i ==> table[j] == rs[j]
        invariant forall j :: i < j <= n ==> table[j] == rs[j - 1]
      {
        table[i] := table[i - 1];
        i := i - 1;
      }
      table[k] := r;
      n := n + 1;
      assert Contents() == rs[..k] + [r] + rs[k..];
    }

    /** `GC_exclude_static_roots_inner`: overlaps are always noticed. */
    method Exclude(start: nat, finish: nat) returns (r: Outcome)
      requires Valid() && start < finish
      modifies this`n, table
      ensures Valid()
      ensures r == Overlap <==> exists a: nat :: Covers(old(Contents()), a) && Has(Range(start, finish), a)
      // A range that begins where this one ends is extended; otherwise one more is needed.
      ensures r == Full <==> r != Overlap && old(n) == MAX_EXCLUSIONS && !BeginsAt(old(Contents()), finish)
      ensures r == Excluded ==> n == old(n) + if BeginsAt(old(Contents()), finish) then 0 else 1
      ensures r == Excluded ==>
                forall a: nat :: Covers(Contents(), a) <==> (Covers(old(Contents()), a) || Has(Range(start, finish), a))
      ensures r != Excluded ==> Contents() == old(Contents())
    {
      ghost var rs := Contents();
      var z := Range(start, finish);
      var next := 0;
      if n > 0 {
        next := NextExclusion(start);
      }
      MeetsOnlyNext(rs, z, next);
      NextBegins(rs, z, next);
      hide Covers;
      if next < n {
        if table[next].start < finish {
          return Overlap;
        }
        if table[next].start == finish {
          CoversExtend(rs, next, z);
          table[next] := Range(start, table[next].end);
          assert Contents() == rs[next := Range(start, rs[next].end)];
          return Excluded;
        }
      }
      if n >= MAX_EXCLUSIONS {
        return Full;
      }
      CoversInsert(rs, next, z);
      InsertAscending(rs, next, z);
      Insert(next, z);
      return Excluded;
    }

    /** `GC_push_conditional_with_exclusions`: the ranges that are pushed. */
    method PushWithExclusions(bottom0: nat, top: nat) returns (pushed: seq<Range>)
      requires Valid() && n > 0
      ensures Ascending(pushed)
      ensures forall a: nat :: Covers(pushed, a) <==> (bottom0 <= a < top && !Covers(Contents(), a))
    {
      ghost var rs := Contents();
      var bottom := bottom0;
      pushed := [];
      while bottom < top
        invariant bottom0 <= bottom && Ascending(pushed)
        invariant forall i :: 0 <= i < |pushed| ==> pushed[i].end <= bottom
        invariant forall a: nat :: Covers(pushed, a) <==> (bottom0 <= a < top && a < bottom && !Covers(rs, a))
        decreases top - bottom
      {
        var next := NextExclusion(bottom);
        NothingBefore(rs, bottom, next);
        if next == n || table[next].start >= top {
          CoversAppend(pushed, Range(bottom, top));
          pushed := pushed + [Range(bottom, top)];
          break;
        }
        var exclStart := table[next].start;
        if exclStart > bottom {
          CoversAppend(pushed, Range(bottom, exclStart));
          pushed := pushed + [Range(bottom, exclStart)];
        }
        bottom := table[next].end;
      }
    }
  }

  lemma InsertAscending(rs: seq<Range>, k: nat, r: Range)
    requires Ascending(rs) && r.start < r.end && IsNext(rs, r.start, k) && (k < |rs| ==> r.end <= rs[k].start)
    ensures Ascending(rs[..k] + [r] + rs[k..])
  {
    var zs := rs[..k] + [r] + rs[k..];
    assert forall i :: 0 <= i < |zs| ==> zs[i] == if i < k then rs[i] else if i == k then r else rs[i - 1];
    forall i, j | 0 <= i < j < |zs| ensures zs[i].end <= zs[j].start {
      assert i == k && j > k + 1 ==> rs[k].end <= rs[j - 1].start;
    }
  }

  /** Between an address and the first range that ends behind it nothing is excluded, and that range is. */
  lemma NothingBefore(rs: seq<Range>, b: nat, k: nat)
    requires Ascending(rs) && IsNext(rs, b, k)
    ensures k == |rs| ==> forall a: nat :: a >= b ==> !Covers(rs, a)
    ensures k < |rs| ==> forall a: nat :: b <= a < rs[k].end ==> (Covers(rs, a) <==> a >= rs[k].start)
  {
    forall a: nat, i | 0 <= i < |rs| && a >= b && Has(rs[i], a) ensures k < |rs| && (i == k || a >= rs[k].end) {
      assert i > k ==> rs[k].end <= rs[i].start;
    }
    assert k < |rs| ==> forall a: nat :: Has(rs[k], a) ==> Covers(rs, a);
  }

  // -----------------------------------------------------------------------------------
  // Sections of the collector's own memory
  // -----------------------------------------------------------------------------------

  datatype Sect = Sect(start: nat, bytes: nat)

  ghost predicate SortedSects(s: seq<Sect>) {
    forall i, j :: 0 <= i < j < |s| ==> s[i].start <= s[j].start
  }

  /** Sorted but for the element at position `k`, which may be too small for its place. */
  ghost predicate SortedBut(s: seq<Sect>, k: nat) {
    && (forall i, j :: 0 <= i < j < |s| && i != k && j != k ==> s[i].start <= s[j].start)
    && (forall j :: k < j < |s| ==> k < |s| && s[k].start <= s[j].start)
  }

  function Exchanged(s: seq<Sect>, i: nat): (z: seq<Sect>)
    requires i + 1 < |s|
    ensures |z| == |s| && forall k :: 0 <= k < |s| ==> z[k] == if k == i then s[i + 1] else if k == i + 1 then s[i] else s[k]
  {
    s[i := s[i + 1]][i + 1 := s[i]]
  }

  lemma SwapDown(s: seq<Sect>, i: nat)
    requires i + 1 < |s| && SortedBut(s, i + 1) && s[i].start > s[i + 1].start
    ensures SortedBut(Exchanged(s, i), i) && multiset(Exchanged(s, i)) == multiset(s)
  {
    SwapKeepsAll(s, i);
  }

  lemma SwapKeepsAll(s: seq<Sect>, i: nat)
    requires i + 1 < |s|
    ensures multiset(Exchanged(s, i)) == multiset(s)
  {
    var z := s[i := s[i + 1]];
    assert multiset(z) == multiset(s) - multiset{s[i]} + multiset{s[i + 1]};
    assert multiset(z[i + 1 := s[i]]) == multiset(z) - multiset{z[i + 1]} + multiset{s[i]};
    assert s[i] in s && multiset(s)[s[i]] > 0;
  }

  /** The inner loop of `sort_heap_sects`: the element behind a sorted prefix sinks to its place. */
  method SinkInto(base: array<Sect>, nsorted: nat)
    requires 1 <= nsorted < base.Length && SortedSects(base[..nsorted])
    modifies base
    ensures SortedSects(base[..nsorted + 1]) && base[nsorted + 1..] == old(base[nsorted + 1..])
    ensures multiset(base[..]) == old(multiset(base[..]))
  {
    hide SortedBut, SortedSects;
    PrefixSortedBut(base[..nsorted], base[nsorted]);
    assert base[..nsorted] + [base[nsorted]] == base[..nsorted + 1];
    ghost var s := Sink(base, nsorted);
    assert base[..nsorted + 1] == s;
    SamePrefix(old(base[..]), base[..], nsorted + 1);
  }

  method Sink(base: array<Sect>, nsorted: nat) returns (ghost s: seq<Sect>)
    requires 1 <= nsorted < base.Length && SortedBut(base[..nsorted + 1], nsorted)
    modifies base
    ensures SortedSects(s) && multiset(s) == old(multiset(base[..nsorted + 1]))
    ensures |s| == nsorted + 1 && forall k :: 0 <= k <= nsorted ==> s[k] == base[k]
    ensures forall k :: nsorted < k < base.Length ==> base[k] == old(base[k])
  {
    hide SortedBut, SortedSects, Exchanged;
    var i: int := nsorted - 1;
    s := base[..nsorted + 1];
    ghost var m := multiset(s);
    while i >= 0 && base[i].start > base[i + 1].start
      invariant -1 <= i < nsorted && SortedBut(s, i + 1) && multiset(s) == m
      invariant |s| == nsorted + 1 && forall k :: 0 <= k <= nsorted ==> s[k] == base[k]
      invariant forall k :: nsorted < k < base.Length ==> base[k] == old(base[k])
    {
      SwapDown(s, i);
      s := Exchanged(s, i);
      base[i], base[i + 1] := base[i + 1], base[i];
      i := i - 1;
    }
    SunkIsSorted(s, i);
  }

  lemma SamePrefix(s: seq<Sect>, z: seq<Sect>, n: nat)
    requires n <= |s| == |z| && multiset(s[..n]) == multiset(z[..n]) && s[n..] == z[n..]
    ensures multiset(s) == multiset(z)
  {
    assert s == s[..n] + s[n..] && z == z[..n] + z[n..];
  }

  lemma PrefixSortedBut(s: seq<Sect>, x: Sect)
    requires SortedSects(s)
    ensures SortedBut(s + [x], |s|)
  {
  }

  lemma SunkIsSorted(s: seq<Sect>, i: int)
    requires -1 <= i < |s| - 1 && SortedBut(s, i + 1) && (i >= 0 ==> s[i].start <= s[i + 1].start)
    ensures SortedSects(s)
  {
  }

  /** The first inner loop of `sort_heap_sects`: the sorted prefix is as long as possible. */
  method SortedPrefix(base: array<Sect>, from: nat) returns (nsorted: nat)
    requires 1 <= from <= base.Length && SortedSects(base[..from])
    ensures from <= nsorted <= base.Length && SortedSects(base[..nsorted])
  {
    nsorted := from;
    while nsorted < base.Length && base[nsorted - 1].start < base[nsorted].start
      invariant from <= nsorted <= base.Length && SortedSects(base[..nsorted])
    {
      GrowSorted(base[..nsorted], base[nsorted]);
      assert base[..nsorted] + [base[nsorted]] == base[..nsorted + 1];
      nsorted := nsorted + 1;
    }
  }

  /** `sort_heap_sects`, also if starts are equal. */
  method SortHeapSects(base: array<Sect>)
    modifies base
    ensures SortedSects(base[..]) && multiset(base[..]) == old(multiset(base[..]))
  {
    var n := base.Length;
    var nsorted := 1;
    while nsorted < n
      invariant 1 <= nsorted && (n > 0 ==> nsorted <= n && SortedSects(base[..nsorted]))
      invariant multiset(base[..]) == old(multiset(base[..]))
      decreases n - nsorted
    {
      nsorted := SortedPrefix(base, nsorted);
      if nsorted == n {
        break;
      }
      SinkInto(base, nsorted);
      nsorted := nsorted + 1;
    }
    assert base[..n] == base[..];
  }

  lemma GrowSorted(s: seq<Sect>, x: Sect)
    requires SortedSects(s) && s != [] && s[|s| - 1].start <= x.start
    ensures SortedSects(s + [x])
  {
  }

  // -----------------------------------------------------------------------------------
  // What of a mapping is not the collector's own
  // -----------------------------------------------------------------------------------

  predicate InSect(x: Sect, a: nat) {
    x.start <= a < x.start + x.bytes
  }

  ghost predicate InSects(s: seq<Sect>, a: nat) {
    exists i :: 0 <= i < |s| && InSect(s[i], a)
  }

  /** Sorted sections that are not empty and do not overlap. */
  ghost predicate SectsApart(s: seq<Sect>) {
    && (forall i :: 0 <= i < |s| ==> s[i].bytes > 0)
    && forall i, j :: 0 <= i < j < |s| ==> s[i].start + s[i].bytes <= s[j].start
  }

  /** Sorting is enough: sections that do not overlap lie one behind the other then. */
  lemma SortedAreApart(s: seq<Sect>)
    requires SortedSects(s) && forall i :: 0 <= i < |s| ==> s[i].bytes > 0
    requires forall i, j, a: nat :: 0 <= i < |s| && 0 <= j < |s| && InSect(s[i], a) && InSect(s[j], a) ==> i == j
    ensures SectsApart(s)
  {
    forall i, j | 0 <= i < j < |s| ensures s[i].start + s[i].bytes <= s[j].start {
      assert InSect(s[j], s[j].start) && (s[j].start < s[i].start + s[i].bytes ==> InSect(s[i], s[j].start));
    }
  }

  /**
   The part of `GC_register_map_entries` that deals with one writable mapping: the ranges that it
   submits as roots are the mapping without the collector's sections.
   */
  method CarveMapping(s: seq<Sect>, start0: nat, end: nat) returns (added: seq<Range>)
    requires SectsApart(s) && s != [] && start0 < end
    ensures Ascending(added)
    ensures forall a: nat :: Covers(added, a) <==> (start0 <= a < end && !InSects(s, a))
  {
    var start := start0;
    var leastHa, greatestHa := s[0].start, s[|s| - 1].start + s[|s| - 1].bytes;
    SectsWithin(s);
    if end <= leastHa || start >= greatestHa {
      CoversAppend([], Range(start, end));
      assert [] + [Range(start, end)] == [Range(start, end)];
      return [Range(start, end)];
    }
    added := [];
    var i := 0;
    while s[i].start + s[i].bytes < start
      invariant 0 <= i < |s|
      invariant forall j :: 0 <= j < i ==> s[j].start + s[j].bytes < start
    {
      i := i + 1;
    }
    if s[i].start <= start {
      start := s[i].start + s[i].bytes;
      i := i + 1;
    }
    SkippedIsInside(s, start0, start, i);
    added := CarveFrom(s, start0, start, i, end);
  }

  /** The loop over the sections that start inside the mapping. */
  method CarveFrom(s: seq<Sect>, ghost start0: nat, start1: nat, i1: nat, end: nat) returns (added: seq<Range>)
    requires SectsApart(s) && i1 <= |s| && start0 <= start1
    requires i1 > 0 ==> s[i1 - 1].start + s[i1 - 1].bytes <= start1
    requires i1 < |s| ==> start1 <= s[i1].start
    requires forall a: nat :: start0 <= a < start1 ==> InSects(s, a)
    ensures Ascending(added)
    ensures forall a: nat :: Covers(added, a) <==> (start0 <= a < end && !InSects(s, a))
  {
    hide InSects, Covers;
    var i, start := i1, start1;
    added := [];
    CoversNothing();
    while i < |s| && s[i].start < end && start < end
      invariant i <= |s| && start0 <= start && Ascending(added)
      invariant i > 0 ==> s[i - 1].start + s[i - 1].bytes <= start
      invariant i < |s| ==> start <= s[i].start
      invariant forall k :: 0 <= k < |added| ==> added[k].end <= start && added[k].end <= end
      invariant forall a: nat :: Covers(added, a) <==> (start0 <= a < end && a < start && !InSects(s, a))
    {
      BeforeSect(s, i, start);
      if start < s[i].start {
        CoversAppend(added, Range(start, s[i].start));
        added := added + [Range(start, s[i].start)];
      }
      start := s[i].start + s[i].bytes;
      i := i + 1;
    }
    if i < |s| {
      BeforeSect(s, i, start);
    }
    BeyondSects(s, i, start);
    if start < end {
      CoversAppend(added, Range(start, end));
      added := added + [Range(start, end)];
    }
  }

  lemma CoversNothing()
    ensures forall a: nat :: !Covers([], a)
  {
  }

  lemma SectsWithin(s: seq<Sect>)
    requires SectsApart(s) && s != []
    ensures forall a: nat :: InSects(s, a) ==> s[0].start <= a < s[|s| - 1].start + s[|s| - 1].bytes
  {
  }

  /** What the start of the mapping has been moved over lies in a section. */
  lemma SkippedIsInside(s: seq<Sect>, start0: nat, start: nat, i: nat)
    requires SectsApart(s) && i <= |s|
    requires start == start0 || (i > 0 && s[i - 1].start <= start0 && start == s[i - 1].start + s[i - 1].bytes)
    ensures forall a: nat :: start0 <= a < start ==> InSects(s, a)
  {
    forall a: nat | start0 <= a < start ensures InSects(s, a) {
      assert InSect(s[i - 1], a);
    }
  }

  /** From the end of the section before section `i` to the end of section `i`, just that section is in sections. */
  lemma BeforeSect(s: seq<Sect>, i: nat, start: nat)
    requires SectsApart(s) && i < |s| && (i > 0 ==> s[i - 1].start + s[i - 1].bytes <= start) && start <= s[i].start
    ensures forall a: nat :: start <= a < s[i].start + s[i].bytes ==> (InSects(s, a) <==> a >= s[i].start)
  {
    forall j | 0 <= j < |s| && j != i ensures s[j].start + s[j].bytes <= start || s[i].start + s[i].bytes <= s[j].start {
      assert j < i - 1 ==> s[j].start + s[j].bytes <= s[i - 1].start;
    }
    assert forall a: nat :: InSect(s[i], a) ==> InSects(s, a);
  }

  lemma BeyondSects(s: seq<Sect>, i: nat, start: nat)
    requires SectsApart(s) && i <= |s| && (i > 0 ==> s[i - 1].start + s[i - 1].bytes <= start)
    ensures i == |s| ==> forall a: nat :: a >= start ==> !InSects(s, a)
  {
  }
}
