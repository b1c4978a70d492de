/**
 The two-level index from addresses to block headers: a hash table of bottom indices of 1024
 entries each, which are also linked in ascending and descending order. An entry is nil, a
 header, or a count of heap blocks by which to go back towards the start of a large block.
 */
module HeaderIndex {
  import opened Arithmetic
  import opened FreeLists
  import opened HeapTiling

  const BOTTOM_SZ: nat := 1024
  const TOP_SZ: nat := 2048
  const MAX_JUMP: nat := HBLKSIZE - 1

  /** The contents of a header are in the block map; the index only says that there is one. */
  datatype Cell = Nil | Forward(count: nat) | Head

  /** A link to a bottom index, which is known by its key, the high-order part of addresses. */
  datatype Link = Null | To(key: nat)

  datatype Bottom = Bottom(index: seq<Cell>, asc: Link, desc: Link)

  type Nodes = map<nat, Bottom>

  /** The entry for heap block address `x`. */
  function CellAt(nodes: Nodes, x: nat): Cell {
    if x / BOTTOM_SZ in nodes && x % BOTTOM_SZ < |nodes[x / BOTTOM_SZ].index|
    then nodes[x / BOTTOM_SZ].index[x % BOTTOM_SZ] else Nil
  }

  function Smaller(a: nat, b: nat): nat {
    if a < b then a else b
  }

  /** What the entry for address `x` has to be. */
  ghost function Expected(hdrs: Headers, owner: map<nat, nat>, x: nat): Cell {
    if x in hdrs then Head
    else if x in owner && owner[x] in hdrs && hdrs[owner[x]].Used? && owner[x] <= x then Forward(Smaller(x - owner[x], MAX_JUMP))
    else Nil
  }

  /** The index stands for the map from block addresses to headers. */
  ghost predicate Refines(nodes: Nodes, hdrs: Headers, owner: map<nat, nat>) {
    Tiled(hdrs, owner) && forall x :: CellAt(nodes, x) == Expected(hdrs, owner, x)
  }

  // -----------------------------------------------------------------------------------
  // The list of bottom indices
  // -----------------------------------------------------------------------------------

  function LinkAt(order: seq<nat>, t: int): Link {
    if 0 <= t < |order| then To(order[t]) else Null
  }

  ghost predicate Ascending(order: seq<nat>) {
    forall s, t :: 0 <= s < t < |order| ==> order[s] < order[t]
  }

  ghost predicate NodeListed(nodes: Nodes, order: seq<nat>, t: nat) {
    && t < |order| && order[t] in nodes
    && nodes[order[t]].asc == LinkAt(order, t + 1) && nodes[order[t]].desc == LinkAt(order, t - 1)
  }

  /** `order` is the sorted list of all keys, and the links follow it both ways. */
  ghost predicate Listed(nodes: Nodes, order: seq<nat>) {
    && Ascending(order)
    && (forall k :: k in nodes <==> k in order)
    && (forall t :: 0 <= t < |order| ==> NodeListed(nodes, order, t))
    && (forall k :: k in nodes ==> |nodes[k].index| == BOTTOM_SZ)
  }

  /** `TL_HASH`. */
  function Hash(key: nat): (h: nat)
    ensures h < TOP_SZ
  {
    key % TOP_SZ
  }

  /** The top index: chains of keys, where each bottom index is on the chain for its key. */
  ghost predicate TopOk(nodes: Nodes, top: seq<seq<nat>>) {
    && |top| == TOP_SZ
    && forall k :: k in nodes <==> k in top[Hash(k)]
  }

  /** Between two neighbouring keys there is no bottom index. */
  lemma NoKeyBetween(nodes: Nodes, order: seq<nat>, t: int, x: nat)
    requires Listed(nodes, order) && -1 <= t < |order|
    requires t >= 0 ==> x / BOTTOM_SZ > order[t]
    requires t + 1 < |order| ==> x / BOTTOM_SZ < order[t + 1]
    ensures CellAt(nodes, x) == Nil
  {
    var key := x / BOTTOM_SZ;
    forall s | 0 <= s < |order| ensures order[s] != key {
      assert s < t ==> order[s] < order[t];
      assert s > t + 1 ==> order[t + 1] < order[s];
    }
  }

  // -----------------------------------------------------------------------------------
  // Changing entries
  // -----------------------------------------------------------------------------------

  function SetCell(nodes: Nodes, x: nat, c: Cell): Nodes
    requires x / BOTTOM_SZ in nodes && |nodes[x / BOTTOM_SZ].index| == BOTTOM_SZ
  {
    var n := nodes[x / BOTTOM_SZ];
    nodes[x / BOTTOM_SZ := n.(index := n.index[x % BOTTOM_SZ := c])]
  }

  lemma SetCellSets(nodes: Nodes, x: nat, c: Cell)
    requires x / BOTTOM_SZ in nodes && |nodes[x / BOTTOM_SZ].index| == BOTTOM_SZ
    ensures forall y: nat :: CellAt(SetCell(nodes, x, c), y) == if y == x then c else CellAt(nodes, y)
  {
    forall y: nat ensures CellAt(SetCell(nodes, x, c), y) == if y == x then c else CellAt(nodes, y) {
      assert y == BOTTOM_SZ * (y / BOTTOM_SZ) + y % BOTTOM_SZ;
      assert x == BOTTOM_SZ * (x / BOTTOM_SZ) + x % BOTTOM_SZ;
    }
  }

  /** Bottom indices that differ in entries only. */
  ghost predicate SameNodes(nodes: Nodes, z: Nodes) {
    && z.Keys == nodes.Keys
    && forall k :: k in nodes ==> |z[k].index| == |nodes[k].index| && z[k].asc == nodes[k].asc && z[k].desc == nodes[k].desc
  }

  lemma SetCellSame(nodes: Nodes, x: nat, c: Cell)
    requires x / BOTTOM_SZ in nodes && |nodes[x / BOTTOM_SZ].index| == BOTTOM_SZ
    ensures SameNodes(nodes, SetCell(nodes, x, c))
  {
  }

  lemma SameNodesListed(nodes: Nodes, z: Nodes, order: seq<nat>, top: seq<seq<nat>>)
    requires SameNodes(nodes, z) && Listed(nodes, order) && TopOk(nodes, top)
    ensures Listed(z, order) && TopOk(z, top)
  {
    forall t | 0 <= t < |order| ensures NodeListed(z, order, t) {
      assert NodeListed(nodes, order, t);
    }
  }

  // -----------------------------------------------------------------------------------
  // A new bottom index
  // -----------------------------------------------------------------------------------

  function WithAsc(nodes: Nodes, l: Link, to: Link): Nodes {
    if l.To? && l.key in nodes then nodes[l.key := nodes[l.key].(asc := to)] else nodes
  }

  function WithDesc(nodes: Nodes, l: Link, to: Link): Nodes {
    if l.To? && l.key in nodes then nodes[l.key := nodes[l.key].(desc := to)] else nodes
  }

  /** Bottom index `hi` is linked in between `pi` and `p`. */
  function LinkedIn(nodes: Nodes, hi: nat, pi: Link, p: Link): Nodes {
    WithAsc(WithDesc(nodes[hi := Bottom(seq(BOTTOM_SZ, i => Nil), p, pi)], p, To(hi)), pi, To(hi))
  }

  function Inserted(order: seq<nat>, t: nat, hi: nat): seq<nat>
    requires t <= |order|
  {
    order[..t] + [hi] + order[t..]
  }

  lemma InsertKeepsOrder(order: seq<nat>, t: nat, hi: nat)
    requires Ascending(order) && t <= |order|
    requires forall s :: 0 <= s < t ==> order[s] < hi
    requires t < |order| ==> hi < order[t]
    ensures Ascending(Inserted(order, t, hi))
    ensures forall k :: k in Inserted(order, t, hi) <==> k in order || k == hi
    ensures hi !in order
  {
    var z := Inserted(order, t, hi);
    forall a, b | 0 <= a < b < |z| ensures z[a] < z[b] {
      assert a < t ==> z[a] == order[a];
      assert a > t ==> z[a] == order[a - 1];
      assert b < t ==> z[b] == order[b];
      assert b > t ==> z[b] == order[b - 1] && (t < b - 1 ==> order[t] < order[b - 1]);
    }
    assert z[t] == hi;
    forall k | k in order ensures k in z && k != hi {
      var s :| 0 <= s < |order| && order[s] == k;
      assert z[if s < t then s else s + 1] == k;
      assert s > t ==> order[t] < order[s];
    }
  }

  lemma LinkedInKeys(nodes: Nodes, hi: nat, pi: Link, p: Link)
    requires pi.To? ==> pi.key in nodes
    requires p.To? ==> p.key in nodes
    ensures LinkedIn(nodes, hi, pi, p).Keys == nodes.Keys + {hi}
    ensures (forall k :: k in nodes ==> |nodes[k].index| == BOTTOM_SZ) ==>
              forall k :: k in LinkedIn(nodes, hi, pi, p) ==> |LinkedIn(nodes, hi, pi, p)[k].index| == BOTTOM_SZ
  {
  }

  lemma LinksAreKeys(nodes: Nodes, order: seq<nat>, t: int)
    requires Listed(nodes, order)
    ensures LinkAt(order, t).To? ==> LinkAt(order, t).key in nodes
  {
  }

  lemma InsertListed(nodes: Nodes, order: seq<nat>, t: nat, hi: nat)
    requires Listed(nodes, order) && t <= |order|
    requires forall s :: 0 <= s < t ==> order[s] < hi
    requires t < |order| ==> hi < order[t]
    ensures Listed(LinkedIn(nodes, hi, LinkAt(order, t - 1), LinkAt(order, t)), Inserted(order, t, hi))
    ensures hi !in nodes
  {
    InsertKeepsOrder(order, t, hi);
    var pi, p := LinkAt(order, t - 1), LinkAt(order, t);
    var z, o := LinkedIn(nodes, hi, pi, p), Inserted(order, t, hi);
    LinksAreKeys(nodes, order, t - 1);
    LinksAreKeys(nodes, order, t);
    LinkedInKeys(nodes, hi, pi, p);
    assert |o| == |order| + 1;
    hide LinkedIn, Inserted, LinkAt, Ascending;
    forall s | 0 <= s < |o| ensures NodeListed(z, o, s) {
      InsertNode(nodes, order, t, hi, s);
    }
    hide NodeListed;
    assert forall k :: k in z <==> k in z.Keys;
  }

  lemma InsertNode(nodes: Nodes, order: seq<nat>, t: nat, hi: nat, s: nat)
    requires Listed(nodes, order) && t <= |order| && hi !in order && s <= |order|
    ensures NodeListed(LinkedIn(nodes, hi, LinkAt(order, t - 1), LinkAt(order, t)), Inserted(order, t, hi), s)
  {
    if s < t {
      InsertNodeBefore(nodes, order, t, hi, s);
    } else if s > t {
      InsertNodeAfter(nodes, order, t, hi, s);
    } else {
      assert t > 0 ==> NodeListed(nodes, order, t - 1);
      assert t < |order| ==> NodeListed(nodes, order, t);
    }
  }

  lemma InsertNodeBefore(nodes: Nodes, order: seq<nat>, t: nat, hi: nat, s: nat)
    requires Listed(nodes, order) && s < t <= |order| && hi !in order
    ensures NodeListed(LinkedIn(nodes, hi, LinkAt(order, t - 1), LinkAt(order, t)), Inserted(order, t, hi), s)
  {
    assert NodeListed(nodes, order, s);
    assert t < |order| ==> order[s] < order[t];
    assert s < t - 1 ==> order[s] < order[t - 1];
  }

  lemma InsertNodeAfter(nodes: Nodes, order: seq<nat>, t: nat, hi: nat, s: nat)
    requires Listed(nodes, order) && t < s <= |order| && hi !in order
    ensures NodeListed(LinkedIn(nodes, hi, LinkAt(order, t - 1), LinkAt(order, t)), Inserted(order, t, hi), s)
  {
    assert NodeListed(nodes, order, s - 1);
    assert t > 0 ==> order[t - 1] < order[s - 1];
    assert t < s - 1 ==> order[t] < order[s - 1];
    InsertedAfter(order, t, hi, s);
    var pi, p := LinkAt(order, t - 1), LinkAt(order, t);
    hide Listed, Inserted, LinkAt;
    LinkedInAfter(nodes, hi, pi, p, order[s - 1]);
  }

  lemma LinkedInAfter(nodes: Nodes, hi: nat, pi: Link, p: Link, k: nat)
    requires k in nodes && k != hi && pi != To(k)
    ensures var z := LinkedIn(nodes, hi, pi, p);
      && k in z && z[k].asc == nodes[k].asc && z[k].desc == if p == To(k) then To(hi) else nodes[k].desc
  {
  }

  lemma InsertedAfter(order: seq<nat>, t: nat, hi: nat, s: nat)
    requires t < s <= |order|
    ensures var o := Inserted(order, t, hi);
      && s < |o| && o[s] == order[s - 1] && LinkAt(o, s + 1) == LinkAt(order, s)
      && LinkAt(o, s - 1) == if s - 1 == t then To(hi) else LinkAt(order, s - 2)
  {
  }

  lemma InsertCells(nodes: Nodes, hi: nat, pi: Link, p: Link)
    requires hi !in nodes && pi != To(hi) && p != To(hi)
    ensures forall x :: CellAt(LinkedIn(nodes, hi, pi, p), x) == CellAt(nodes, x)
    ensures hi in LinkedIn(nodes, hi, pi, p) && nodes.Keys <= LinkedIn(nodes, hi, pi, p).Keys
  {
  }

  lemma InsertTop(nodes: Nodes, z: Nodes, top: seq<seq<nat>>, hi: nat)
    requires TopOk(nodes, top) && z.Keys == nodes.Keys + {hi}
    ensures |top| == TOP_SZ && TopOk(z, top[Hash(hi) := [hi] + top[Hash(hi)]])
  {
    var u := top[Hash(hi) := [hi] + top[Hash(hi)]];
    forall k ensures k in z <==> k in u[Hash(k)] {
      assert k in z <==> k in z.Keys;
    }
  }

  // -----------------------------------------------------------------------------------
  // The index
  // -----------------------------------------------------------------------------------

  class Index {
    var nodes: Nodes
    var top: seq<seq<nat>>
    var first: Link
    var last: Link
    ghost var order: seq<nat>

    ghost predicate Valid()
      reads this
    {
      && Listed(nodes, order) && TopOk(nodes, top)
      && first == LinkAt(order, 0) && last == LinkAt(order, |order| - 1)
    }

    /** `GC_init_headers`: an index without entries, which stands for the empty heap. */
    constructor ()
      ensures Valid() && Refines(nodes, map[], map[])
    {
      nodes, top, first, last, order := map[], seq(TOP_SZ, i => []), Null, Null, [];
    }

    /** `GET_BI`: the bottom index for a key, or `Null` for `GC_all_nils`. */
    method GetBi(hi: nat) returns (bi: Link)
      requires Valid()
      ensures bi == if hi in nodes then To(hi) else Null
    {
      var chain := top[Hash(hi)];
      var i := 0;
      while i < |chain| && chain[i] != hi
        invariant 0 <= i <= |chain| && hi !in chain[..i]
      {
        i := i + 1;
      }
      bi := if i < |chain| then To(hi) else Null;
      assert chain[..|chain|] == chain;
    }

    /** The search for the place of key `hi` in the list: its neighbours-to-be. */
    method FindPlace(hi: nat) returns (pi: Link, p: Link, ghost t: nat)
      requires Valid() && hi !in nodes
      ensures t <= |order| && pi == LinkAt(order, t - 1) && p == LinkAt(order, t)
      ensures forall s :: 0 <= s < t ==> order[s] < hi
      ensures t < |order| ==> hi < order[t]
    {
      pi, p, t := Null, first, 0;
      while p != Null && p.key < hi
        invariant t <= |order| && pi == LinkAt(order, t - 1) && p == LinkAt(order, t)
        invariant forall s :: 0 <= s < t ==> order[s] < hi
        decreases |order| - t
      {
        assert NodeListed(nodes, order, t);
        pi, p, t := p, nodes[p.key].asc, t + 1;
      }
    }

    /** A new bottom index is linked in between two neighbours, and put on its hash chain. */
    method LinkIn(hi: nat, pi: Link, p: Link)
      modifies this`nodes, this`first, this`last, this`top
      requires |top| == TOP_SZ
      ensures nodes == old(LinkedIn(nodes, hi, pi, p))
      ensures first == (if pi == Null then To(hi) else old(first)) && last == (if p == Null then To(hi) else old(last))
      ensures |old(top)| == TOP_SZ && top == old(top)[Hash(hi) := [hi] + old(top)[Hash(hi)]]
    {
      nodes := nodes[hi := Bottom(seq(BOTTOM_SZ, i => Nil), p, pi)];
      if p == Null {
        last := To(hi);
      } else {
        nodes := WithDesc(nodes, p, To(hi));
      }
      if pi == Null {
        first := To(hi);
      } else {
        nodes := WithAsc(nodes, pi, To(hi));
      }
      top := top[Hash(hi) := [hi] + top[Hash(hi)]];
    }

    /** `get_index`, if there is memory for it. */
    method GetIndex(addr: nat)
      requires Valid()
      modifies this
      ensures Valid() && addr / BOTTOM_SZ in nodes && old(nodes.Keys) <= nodes.Keys
      ensures forall x :: CellAt(nodes, x) == old(CellAt(nodes, x))
    {
      hide Listed, TopOk, Inserted, CellAt, LinkedIn, LinkAt, Hash;
      var hi := addr / BOTTOM_SZ;
      var bi := GetBi(hi);
      if bi == Null {
        var pi, p;
        ghost var t: nat;
        pi, p, t := FindPlace(hi);
        InsertAll(nodes, top, order, hi, t, first, last);
        LinkIn(hi, pi, p);
        order := Inserted(order, t, hi);
      }
    }

    /** `HDR`. */
    method Hdr(x: nat) returns (c: Cell)
      requires Valid()
      ensures c == CellAt(nodes, x)
    {
      var bi := GetBi(x / BOTTOM_SZ);
      c := if bi == Null then Nil else nodes[bi.key].index[x % BOTTOM_SZ];
    }

    /** `SET_HDR`. */
    method SetHdr(x: nat, c: Cell)
      requires Valid() && x / BOTTOM_SZ in nodes
      modifies this`nodes
      ensures Valid() && nodes.Keys == old(nodes.Keys)
      ensures forall y :: CellAt(nodes, y) == if y == x then c else old(CellAt(nodes, y))
    {
      IndexSizes(nodes, order);
      SetCellSets(nodes, x, c);
      SetCellSame(nodes, x, c);
      SameNodesListed(nodes, SetCell(nodes, x, c), order, top);
      hide Listed, TopOk, CellAt;
      nodes := SetCell(nodes, x, c);
    }

    /** `GC_install_header`. */
    method InstallHeader(h: nat)
      requires Valid()
      modifies this
      ensures Valid()
      ensures forall x: nat :: CellAt(nodes, x) == if x == h then Head else old(CellAt(nodes, x))
    {
      GetIndex(h);
      SetHdr(h, Head);
    }

    /** `GC_remove_header`. */
    method RemoveHeader(h: nat)
      requires Valid() && CellAt(nodes, h) == Head
      modifies this`nodes
      ensures Valid()
      ensures forall x: nat :: CellAt(nodes, x) == if x == h then Nil else old(CellAt(nodes, x))
    {
      SetHdr(h, Nil);
    }

    /** The first two steps of `GC_install_counts`: bottom indices for all addresses of a block. */
    method GetIndices(h: nat, n: nat)
      requires Valid() && n >= 1
      modifies this
      ensures Valid() && forall x :: h <= x < h + n ==> x / BOTTOM_SZ in nodes
      ensures forall x :: CellAt(nodes, x) == old(CellAt(nodes, x))
    {
      hide Listed, TopOk, CellAt;
      var hbp := h;
      while hbp < h + n
        invariant Valid() && h <= hbp
        invariant forall k :: h / BOTTOM_SZ <= k < hbp / BOTTOM_SZ ==> k in nodes
        invariant forall x :: CellAt(nodes, x) == old(CellAt(nodes, x))
        decreases h + n - hbp
      {
        GetIndex(hbp);
        hbp := hbp + BOTTOM_SZ;
      }
      GetIndex(h + n - 1);
    }

    /** `GC_install_counts` for the block of `n` heap blocks at `h`. */
    method InstallCounts(h: nat, n: nat)
      requires Valid() && n >= 1
      modifies this
      ensures Valid()
      ensures forall x: nat :: CellAt(nodes, x) == if h < x < h + n then Forward(Smaller(x - h, MAX_JUMP)) else old(CellAt(nodes, x))
    {
      hide Listed, TopOk, CellAt;
      GetIndices(h, n);
      label L:
      for hbp := h + 1 to h + n
        invariant Valid() && forall x :: h <= x < h + n ==> x / BOTTOM_SZ in nodes
        invariant forall x: nat :: CellAt(nodes, x) == if h < x < hbp then Forward(Smaller(x - h, MAX_JUMP)) else old@L(CellAt(nodes, x))
      {
        var i := hbp - h;
        SetHdr(hbp, Forward(if i > MAX_JUMP then MAX_JUMP else i));
      }
    }

    /** `GC_remove_counts`. */
    method RemoveCounts(h: nat, n: nat)
      requires Valid()
      requires n > 1 && CellAt(nodes, h + 1) == Nil ==> forall x :: h < x < h + n ==> CellAt(nodes, x) == Nil
      requires n > 1 && CellAt(nodes, h + 1) != Nil ==> forall x :: h < x < h + n ==> CellAt(nodes, x) != Nil
      modifies this`nodes
      ensures Valid()
      ensures forall x: nat :: CellAt(nodes, x) == if h < x < h + n then Nil else old(CellAt(nodes, x))
    {
      if n <= 1 {
        return;
      }
      var c := Hdr(h + 1);
      if c == Nil {
        return;
      }
      HasIndices(nodes, h, n);
      hide Listed, TopOk, CellAt;
      for hbp := h + 1 to h + n
        invariant Valid() && forall x :: h < x < h + n ==> x / BOTTOM_SZ in nodes
        invariant forall x: nat :: CellAt(nodes, x) == if h < x < hbp then Nil else old(CellAt(nodes, x))
      {
        SetHdr(hbp, Nil);
      }
    }
  }

  lemma IndexSizes(nodes: Nodes, order: seq<nat>)
    requires Listed(nodes, order)
    ensures forall k :: k in nodes ==> |nodes[k].index| == BOTTOM_SZ
  {
  }

  lemma HasIndices(nodes: Nodes, h: nat, n: nat)
    requires forall x :: h < x < h + n ==> CellAt(nodes, x) != Nil
    ensures forall x :: h < x < h + n ==> x / BOTTOM_SZ in nodes
  {
    forall x | h < x < h + n ensures x / BOTTOM_SZ in nodes {
      assert CellAt(nodes, x) != Nil;
    }
  }

  /** What linking in a new bottom index keeps. */
  lemma InsertAll(nodes: Nodes, top: seq<seq<nat>>, order: seq<nat>, hi: nat, t: nat, first: Link, last: Link)
    requires Listed(nodes, order) && TopOk(nodes, top) && t <= |order| && hi !in nodes
    requires first == LinkAt(order, 0) && last == LinkAt(order, |order| - 1)
    requires forall s :: 0 <= s < t ==> order[s] < hi
    requires t < |order| ==> hi < order[t]
    ensures |top| == TOP_SZ
    ensures var pi, p := LinkAt(order, t - 1), LinkAt(order, t); var z, o := LinkedIn(nodes, hi, pi, p), Inserted(order, t, hi);
      && Listed(z, o) && TopOk(z, top[Hash(hi) := [hi] + top[Hash(hi)]])
      && LinkAt(o, 0) == (if pi == Null then To(hi) else first) && LinkAt(o, |o| - 1) == (if p == Null then To(hi) else last)
      && hi in z && nodes.Keys <= z.Keys && forall x :: CellAt(z, x) == CellAt(nodes, x)
  {
    hide Listed, TopOk, Inserted, LinkedIn, CellAt, Hash;
    var pi, p := LinkAt(order, t - 1), LinkAt(order, t);
    InsertListed(nodes, order, t, hi);
    LinksAreKeys(nodes, order, t - 1);
    LinksAreKeys(nodes, order, t);
    LinkedInKeys(nodes, hi, pi, p);
    InsertTop(nodes, LinkedIn(nodes, hi, pi, p), top, hi);
    InsertEnds(order, t, hi);
    InsertCells(nodes, hi, pi, p);
  }

  lemma InsertEnds(order: seq<nat>, t: nat, hi: nat)
    requires t <= |order|
    ensures LinkAt(Inserted(order, t, hi), 0) == if t == 0 then To(hi) else LinkAt(order, 0)
    ensures LinkAt(Inserted(order, t, hi), |order|) == if t == |order| then To(hi) else LinkAt(order, |order| - 1)
    ensures |Inserted(order, t, hi)| == |order| + 1
  {
  }

  // -----------------------------------------------------------------------------------
  // What the changes of the index mean for the block map
  // -----------------------------------------------------------------------------------

  /** A free block comes into use: its forwarding counts have been installed. */
  lemma UseRefines(nodes: Nodes, z: Nodes, hdrs: Headers, owner: map<nat, nat>, h: nat, m: Hdr)
    requires Refines(nodes, hdrs, owner) && h in hdrs && hdrs[h].Free? && m.Used? && BlkSize(m) == BlkSize(hdrs[h])
    requires forall x: nat :: CellAt(z, x) == if h < x < h + BlkSize(m) then Forward(Smaller(x - h, MAX_JUMP)) else CellAt(nodes, x)
    ensures Refines(z, hdrs[h := m], owner)
  {
    RetagTiled(hdrs, owner, h, m);
    forall x ensures CellAt(z, x) == Expected(hdrs[h := m], owner, x) {
      OwnersOf(hdrs, owner, h, x);
    }
  }

  /** A block goes out of use: its forwarding counts have been removed. */
  lemma FreeRefines(nodes: Nodes, z: Nodes, hdrs: Headers, owner: map<nat, nat>, h: nat, m: Hdr)
    requires Refines(nodes, hdrs, owner) && h in hdrs && hdrs[h].Used? && m.Free? && BlkSize(m) == BlkSize(hdrs[h])
    requires forall x: nat :: CellAt(z, x) == if h < x < h + BlkSize(m) then Nil else CellAt(nodes, x)
    ensures Refines(z, hdrs[h := m], owner)
  {
    RetagTiled(hdrs, owner, h, m);
    forall x ensures CellAt(z, x) == Expected(hdrs[h := m], owner, x) {
      OwnersOf(hdrs, owner, h, x);
    }
  }

  /** Which addresses belong to block `h`, and that no other block starts among them. */
  lemma OwnersOf(hdrs: Headers, owner: map<nat, nat>, h: nat, x: nat)
    requires Tiled(hdrs, owner) && h in hdrs
    ensures (x in owner && owner[x] == h) <==> h <= x < h + BlkSize(hdrs[h])
    ensures h < x < h + BlkSize(hdrs[h]) ==> x !in hdrs
  {
    assert x in owner && owner[x] == h ==> InBlock(hdrs, h, x);
    assert h <= x < h + BlkSize(hdrs[h]) ==> InBlock(hdrs, h, x);
    assert x in hdrs ==> InBlock(hdrs, x, x);
  }

  /** The forwarding counts of a block in use are where `GC_remove_counts` expects them. */
  lemma CountsAreThere(nodes: Nodes, hdrs: Headers, owner: map<nat, nat>, h: nat)
    requires Refines(nodes, hdrs, owner) && h in hdrs && hdrs[h].Used?
    ensures forall x :: h < x < h + BlkSize(hdrs[h]) ==> CellAt(nodes, x) == Forward(Smaller(x - h, MAX_JUMP))
  {
    forall x | h < x < h + BlkSize(hdrs[h]) ensures CellAt(nodes, x) == Forward(Smaller(x - h, MAX_JUMP)) {
      OwnersOf(hdrs, owner, h, x);
    }
  }

  /** A free block is divided: the second part has got a header. */
  lemma DivideRefines(nodes: Nodes, z: Nodes, hdrs: Headers, owner: map<nat, nat>, h: nat, n: nat, first: Hdr, second: Hdr)
    requires Refines(nodes, hdrs, owner) && h in hdrs && hdrs[h].Free? && h < n < h + BlkSize(hdrs[h])
    requires first.Free? && second.Free? && first.nblks == n - h && second.nblks == BlkSize(hdrs[h]) - (n - h)
    requires forall x: nat :: CellAt(z, x) == if x == n then Head else CellAt(nodes, x)
    ensures Refines(z, hdrs[h := first][n := second], Owned(owner, n, second.nblks))
  {
    SplitTiled(hdrs, owner, h, n, first, second);
    forall x ensures CellAt(z, x) == Expected(hdrs[h := first][n := second], Owned(owner, n, second.nblks), x) {
      OwnersOf(hdrs, owner, h, x);
    }
  }

  /** Two adjacent free blocks are merged: the second one has lost its header. */
  lemma MergeRefines(nodes: Nodes, z: Nodes, hdrs: Headers, owner: map<nat, nat>, b: nat, c: nat, m: Hdr)
    requires Refines(nodes, hdrs, owner) && Follows(hdrs, b, c) && hdrs[b].Free? && hdrs[c].Free? && b != c
    requires m.Free? && m.nblks == hdrs[b].nblks + hdrs[c].nblks
    requires forall x: nat :: CellAt(z, x) == if x == c then Nil else CellAt(nodes, x)
    ensures Refines(z, (hdrs - {c})[b := m], Owned(owner, b, m.nblks))
  {
    MergeTiled(hdrs, owner, b, c, m);
    forall x ensures CellAt(z, x) == Expected((hdrs - {c})[b := m], Owned(owner, b, m.nblks), x) {
      OwnersOf(hdrs, owner, b, x);
      OwnersOf(hdrs, owner, c, x);
    }
  }

  /** New memory has got one header, without counts, and is free. */
  lemma NewRefines(nodes: Nodes, z: Nodes, hdrs: Headers, owner: map<nat, nat>, p: nat, m: Hdr)
    requires Refines(nodes, hdrs, owner) && m.Free? && p >= 2 && m.nblks >= 1 && Vacant(owner, p, m.nblks)
    requires forall x: nat :: CellAt(z, x) == if x == p then Head else CellAt(nodes, x)
    ensures Refines(z, hdrs[p := m], Owned(owner, p, m.nblks))
  {
    NewTiled(hdrs, owner, p, m);
    forall x ensures CellAt(z, x) == Expected(hdrs[p := m], Owned(owner, p, m.nblks), x) {
      assert InRange(x, p, m.nblks) ==> x !in owner;
      assert x in hdrs ==> InBlock(hdrs, x, x);
    }
  }

  // -----------------------------------------------------------------------------------
  // Reading the index
  // -----------------------------------------------------------------------------------

  /** The next entry to look at from a forwarding count is inside the same block, and no block starts on the way. */
  lemma JumpStaysInBlock(nodes: Nodes, hdrs: Headers, owner: map<nat, nat>, x: nat)
    requires Refines(nodes, hdrs, owner) && CellAt(nodes, x).Forward?
    ensures x in owner && owner[x] in hdrs && hdrs[owner[x]].Used? && owner[x] < x
    ensures var n := CellAt(nodes, x).count; n >= 1 && owner[x] <= x - n
    ensures forall y :: owner[x] < y <= x ==> y !in hdrs
    ensures forall y :: owner[x] <= y <= x ==> y in owner && owner[y] == owner[x]
  {
    var b := owner[x];
    assert InBlock(hdrs, b, x);
    forall y | b <= y <= x ensures y in owner && owner[y] == b && (b < y ==> y !in hdrs) {
      assert InBlock(hdrs, b, y);
      OwnersOf(hdrs, owner, b, y);
    }
  }

  /** Inside a free block, and outside the heap, the index is nil. */
  lemma NilMeansNoBlock(nodes: Nodes, hdrs: Headers, owner: map<nat, nat>, x: nat)
    requires Refines(nodes, hdrs, owner)
    ensures CellAt(nodes, x) == Head <==> x in hdrs
    ensures CellAt(nodes, x).Forward? <==> x !in hdrs && x in owner && owner[x] in hdrs && hdrs[owner[x]].Used?
  {
    assert x in owner ==> InBlock(hdrs, owner[x], x);
  }

  /** Following the forwarding counts from an address inside a block in use ends at the start of the block. */
  method FollowCounts(idx: Index, x: nat, ghost hdrs: Headers, ghost owner: map<nat, nat>) returns (h: nat)
    requires idx.Valid() && Refines(idx.nodes, hdrs, owner) && CellAt(idx.nodes, x) != Nil
    ensures x in owner && h == owner[x] && h in hdrs && CellAt(idx.nodes, h) == Head
  {
    hide Listed, TopOk, CellAt, Refines, Tiled;
    NilMeansNoBlock(idx.nodes, hdrs, owner, x);
    HeadOwnsItself(idx.nodes, hdrs, owner, x);
    h := x;
    var c := idx.Hdr(h);
    while c.Forward?
      invariant c == CellAt(idx.nodes, h) && c != Nil && h in owner && x in owner && owner[h] == owner[x]
      decreases h
    {
      JumpStaysInBlock(idx.nodes, hdrs, owner, h);
      h := h - c.count;
      NilMeansNoBlock(idx.nodes, hdrs, owner, h);
      c := idx.Hdr(h);
    }
    NilMeansNoBlock(idx.nodes, hdrs, owner, h);
    HeadOwnsItself(idx.nodes, hdrs, owner, h);
  }

  lemma HeadOwnsItself(nodes: Nodes, hdrs: Headers, owner: map<nat, nat>, h: nat)
    requires Refines(nodes, hdrs, owner)
    ensures CellAt(nodes, h) == Head ==> h in owner && owner[h] == h
    ensures CellAt(nodes, h).Forward? ==> h in owner
  {
    assert h in hdrs ==> InBlock(hdrs, h, h);
  }

  // -----------------------------------------------------------------------------------
  // Walking the blocks
  // -----------------------------------------------------------------------------------

  /** A block in use, or, if `allowFree`, any block. */
  predicate Wanted(hdrs: Headers, x: nat, allowFree: bool) {
    x in hdrs && (allowFree || hdrs[x].Used?)
  }

  /** Addresses from `lo` up to but not including `hi` start no wanted block. */
  ghost predicate NoneIn(hdrs: Headers, lo: int, hi: int, allowFree: bool) {
    forall x: nat :: lo <= x < hi ==> !Wanted(hdrs, x, allowFree)
  }

  /** Where no bottom index is, no block starts. */
  lemma GapHasNone(nodes: Nodes, hdrs: Headers, owner: map<nat, nat>, order: seq<nat>, t: int, allowFree: bool)
    requires Listed(nodes, order) && Refines(nodes, hdrs, owner) && -1 <= t < |order|
    ensures var lo := if t < 0 then 0 else (order[t] + 1) * BOTTOM_SZ;
      && (t + 1 < |order| ==> NoneIn(hdrs, lo, order[t + 1] * BOTTOM_SZ, allowFree))
      && (t + 1 == |order| ==> forall x: nat :: lo <= x ==> x !in hdrs)
  {
    var lo := if t < 0 then 0 else (order[t] + 1) * BOTTOM_SZ;
    forall x: nat | lo <= x && (t + 1 < |order| ==> x < order[t + 1] * BOTTOM_SZ) ensures x !in hdrs {
      NoKeyBetween(nodes, order, t, x);
    }
  }

  /** The place in the list of the first key that is not below `hi`. */
  method FirstNotBelow(idx: Index, hi: nat) returns (bi: Link, ghost t: nat)
    requires idx.Valid()
    ensures t <= |idx.order| && bi == LinkAt(idx.order, t)
    ensures forall s :: 0 <= s < t ==> idx.order[s] < hi
    ensures t < |idx.order| ==> idx.order[t] >= hi
  {
    bi, t := idx.first, 0;
    while bi != Null && bi.key < hi
      invariant t <= |idx.order| && bi == LinkAt(idx.order, t)
      invariant forall s :: 0 <= s < t ==> idx.order[s] < hi
      decreases |idx.order| - t
    {
      assert NodeListed(idx.nodes, idx.order, t);
      bi, t := idx.nodes[bi.key].asc, t + 1;
    }
  }

  /** Where the walk upwards starts: nothing wanted is passed over. */
  method StartUp(idx: Index, h: nat, ghost hdrs: Headers, ghost owner: map<nat, nat>, ghost allowFree: bool)
      returns (bi: Link, j: nat, ghost t: nat)
    requires idx.Valid() && Refines(idx.nodes, hdrs, owner)
    ensures t <= |idx.order| && bi == LinkAt(idx.order, t) && j < BOTTOM_SZ
    ensures bi.To? ==> NoneIn(hdrs, h, bi.key * BOTTOM_SZ + j, allowFree) && bi.key * BOTTOM_SZ + j >= h
    ensures bi == Null ==> forall x: nat :: x >= h ==> x !in hdrs
  {
    var hi := h / BOTTOM_SZ;
    j := h % BOTTOM_SZ;
    bi := idx.GetBi(hi);
    if bi == Null {
      bi, t := FirstNotBelow(idx, hi);
      j := 0;
      GapHasNone(idx.nodes, hdrs, owner, idx.order, t - 1, allowFree);
    } else {
      t :| t < |idx.order| && idx.order[t] == hi;
    }
  }

  /** One bottom index, upwards from entry `from`. */
  method ScanUp(idx: Index, key: nat, from: nat, h: nat, allowFree: bool, hdrs: Headers, ghost owner: map<nat, nat>)
      returns (r: Link)
    requires idx.Valid() && Refines(idx.nodes, hdrs, owner) && key in idx.nodes && key * BOTTOM_SZ + from >= h
    requires NoneIn(hdrs, h, key * BOTTOM_SZ + from, allowFree)
    ensures r.To? ==> r.key >= h && Wanted(hdrs, r.key, allowFree) && NoneIn(hdrs, h, r.key, allowFree)
    ensures r == Null ==> NoneIn(hdrs, h, (key + 1) * BOTTOM_SZ, allowFree)
  {
    IndexSizes(idx.nodes, idx.order);
    hide Listed, TopOk, Refines, Tiled;
    var j := from;
    while j < BOTTOM_SZ
      invariant from <= j && NoneIn(hdrs, h, key * BOTTOM_SZ + j, allowFree)
    {
      var x := key * BOTTOM_SZ + j;
      EntryIsCell(idx.nodes, key, j);
      NilMeansNoBlock(idx.nodes, hdrs, owner, x);
      if idx.nodes[key].index[j] != Head {
        j := j + 1;
      } else if allowFree || hdrs[x].Used? {
        return To(x);
      } else {
        FreeBlockHasNone(idx.nodes, hdrs, owner, x);
        j := j + hdrs[x].nblks;
      }
    }
    return Null;
  }

  lemma EntryIsCell(nodes: Nodes, key: nat, j: nat)
    requires key in nodes && |nodes[key].index| == BOTTOM_SZ && j < BOTTOM_SZ
    ensures nodes[key].index[j] == CellAt(nodes, key * BOTTOM_SZ + j)
  {
    assert (key * BOTTOM_SZ + j) / BOTTOM_SZ == key && (key * BOTTOM_SZ + j) % BOTTOM_SZ == j;
  }

  lemma FreeBlockHasNone(nodes: Nodes, hdrs: Headers, owner: map<nat, nat>, x: nat)
    requires Refines(nodes, hdrs, owner) && x in hdrs && hdrs[x].Free?
    ensures hdrs[x].nblks >= 1 && NoneIn(hdrs, x, x + hdrs[x].nblks, false)
  {
    forall y: nat | x <= y < x + hdrs[x].nblks ensures !Wanted(hdrs, y, false) {
      OwnersOf(hdrs, owner, x, y);
    }
  }

  /** `GC_next_block`: the nearest wanted block that starts at or after `h`. */
  method NextBlock(idx: Index, h: nat, allowFree: bool, hdrs: Headers, ghost owner: map<nat, nat>) returns (r: Link)
    requires idx.Valid() && Refines(idx.nodes, hdrs, owner)
    ensures r.To? ==> r.key >= h && Wanted(hdrs, r.key, allowFree) && NoneIn(hdrs, h, r.key, allowFree)
    ensures r == Null ==> forall x: nat :: x >= h ==> !Wanted(hdrs, x, allowFree)
  {
    var bi, j;
    ghost var t: nat;
    bi, j, t := StartUp(idx, h, hdrs, owner, allowFree);
    while bi != Null
      invariant t <= |idx.order| && bi == LinkAt(idx.order, t)
      invariant bi.To? ==> NoneIn(hdrs, h, bi.key * BOTTOM_SZ + j, allowFree) && bi.key * BOTTOM_SZ + j >= h
      invariant bi == Null ==> forall x: nat :: x >= h ==> !Wanted(hdrs, x, allowFree)
      decreases |idx.order| - t
    {
      assert NodeListed(idx.nodes, idx.order, t);
      r := ScanUp(idx, bi.key, j, h, allowFree, hdrs, owner);
      if r != Null {
        return;
      }
      GapHasNone(idx.nodes, hdrs, owner, idx.order, t, allowFree);
      assert t + 1 < |idx.order| ==> idx.order[t] < idx.order[t + 1];
      j := 0;
      bi, t := idx.nodes[bi.key].asc, t + 1;
    }
    return Null;
  }

  /** The place in the list of the last key that is not above `hi`. */
  method LastNotAbove(idx: Index, hi: nat) returns (bi: Link, ghost t: int)
    requires idx.Valid()
    ensures -1 <= t < |idx.order| && bi == LinkAt(idx.order, t)
    ensures forall s :: t < s < |idx.order| ==> idx.order[s] > hi
    ensures t >= 0 ==> idx.order[t] <= hi
  {
    bi, t := idx.last, |idx.order| - 1;
    while bi != Null && bi.key > hi
      invariant -1 <= t < |idx.order| && bi == LinkAt(idx.order, t)
      invariant forall s :: t < s < |idx.order| ==> idx.order[s] > hi
      decreases t + 1
    {
      assert NodeListed(idx.nodes, idx.order, t);
      bi, t := idx.nodes[bi.key].desc, t - 1;
    }
  }

  /** Where the walk downwards starts: no block is passed over. */
  method StartDown(idx: Index, h: nat, ghost hdrs: Headers, ghost owner: map<nat, nat>) returns (bi: Link, j: int, ghost t: int)
    requires idx.Valid() && Refines(idx.nodes, hdrs, owner)
    ensures -1 <= t < |idx.order| && bi == LinkAt(idx.order, t) && 0 <= j < BOTTOM_SZ
    ensures bi.To? ==> NoneIn(hdrs, bi.key * BOTTOM_SZ + j + 1, h + 1, true) && bi.key * BOTTOM_SZ + j <= h
    ensures bi == Null ==> NoneIn(hdrs, 0, h + 1, true)
  {
    var hi := h / BOTTOM_SZ;
    j := h % BOTTOM_SZ;
    bi := idx.GetBi(hi);
    if bi == Null {
      bi, t := LastNotAbove(idx, hi);
      j := BOTTOM_SZ - 1;
      GapHasNone(idx.nodes, hdrs, owner, idx.order, t, true);
    } else {
      t :| 0 <= t < |idx.order| && idx.order[t] == hi;
    }
  }

  /** One bottom index, downwards from entry `from`; a jump may lead below it. */
  method ScanDown(idx: Index, key: nat, from: int, h: nat, hdrs: Headers, ghost owner: map<nat, nat>) returns (r: Link)
    requires idx.Valid() && Refines(idx.nodes, hdrs, owner) && key in idx.nodes && -1 <= from < BOTTOM_SZ
    requires key * BOTTOM_SZ + from <= h && NoneIn(hdrs, key * BOTTOM_SZ + from + 1, h + 1, true)
    ensures r.To? ==> r.key <= h && r.key in hdrs && NoneIn(hdrs, r.key + 1, h + 1, true)
    ensures r == Null ==> NoneIn(hdrs, key * BOTTOM_SZ, h + 1, true)
  {
    IndexSizes(idx.nodes, idx.order);
    hide Listed, TopOk, Refines, Tiled;
    var j := from;
    while j >= 0
      invariant j <= from && NoneIn(hdrs, key * BOTTOM_SZ + j + 1, h + 1, true)
    {
      var x := key * BOTTOM_SZ + j;
      EntryIsCell(idx.nodes, key, j);
      NilMeansNoBlock(idx.nodes, hdrs, owner, x);
      match idx.nodes[key].index[j] {
        case Nil =>
          j := j - 1;
        case Forward(n) =>
          JumpStaysInBlock(idx.nodes, hdrs, owner, x);
          j := j - n;
        case Head =>
          return To(x);
      }
    }
    return Null;
  }

  /** `GC_prev_block`: the nearest block that starts at or before `h`. */
  method PrevBlock(idx: Index, h: nat, hdrs: Headers, ghost owner: map<nat, nat>) returns (r: Link)
    requires idx.Valid() && Refines(idx.nodes, hdrs, owner)
    ensures r.To? ==> r.key <= h && r.key in hdrs && NoneIn(hdrs, r.key + 1, h + 1, true)
    ensures r == Null ==> NoneIn(hdrs, 0, h + 1, true)
  {
    var bi, j;
    ghost var t: int;
    bi, j, t := StartDown(idx, h, hdrs, owner);
    while bi != Null
      invariant -1 <= t < |idx.order| && bi == LinkAt(idx.order, t) && -1 <= j < BOTTOM_SZ
      invariant bi.To? ==> NoneIn(hdrs, bi.key * BOTTOM_SZ + j + 1, h + 1, true) && bi.key * BOTTOM_SZ + j <= h
      invariant bi == Null ==> NoneIn(hdrs, 0, h + 1, true)
      decreases t + 1
    {
      assert NodeListed(idx.nodes, idx.order, t);
      r := ScanDown(idx, bi.key, j, h, hdrs, owner);
      if r != Null {
        return;
      }
      GapHasNone(idx.nodes, hdrs, owner, idx.order, t - 1, true);
      assert t > 0 ==> idx.order[t - 1] < idx.order[t];
      j := BOTTOM_SZ - 1;
      bi, t := idx.nodes[bi.key].desc, t - 1;
    }
    return Null;
  }

  /**
   `get_block_ending_at`, at an address `h` where no block is in the middle: the block that ends
   there, if there is one.
   */
  method BlockEndingAt(idx: Index, h: nat, hdrs: Headers, ghost owner: map<nat, nat>) returns (r: Link)
    requires idx.Valid() && Refines(idx.nodes, hdrs, owner) && h >= 1
    requires forall b :: b in hdrs && b < h ==> b + BlkSize(hdrs[b]) <= h
    ensures r.To? ==> r.key in hdrs && r.key + BlkSize(hdrs[r.key]) == h
    ensures forall b :: b in hdrs && b + BlkSize(hdrs[b]) == h ==> r == To(b)
  {
    hide Listed, TopOk, CellAt;
    var c := idx.Hdr(h - 1);
    NilMeansNoBlock(idx.nodes, hdrs, owner, h - 1);
    assert forall b :: b in hdrs && b + BlkSize(hdrs[b]) == h ==> InBlock(hdrs, b, h - 1);
    if c != Nil {
      var p := FollowCounts(idx, h - 1, hdrs, owner);
      assert InBlock(hdrs, p, h - 1);
      return To(p);
    }
    r := PrevBlock(idx, h - 1, hdrs, owner);
    forall b | b in hdrs && b + BlkSize(hdrs[b]) == h ensures r == To(b) {
      assert InBlock(hdrs, b, h - 1) && Wanted(hdrs, b, true);
      assert r.To? && b < r.key ==> InBlock(hdrs, b, r.key) && InBlock(hdrs, r.key, r.key);
    }
    if r.To? && r.key + BlkSize(hdrs[r.key]) != h {
      r := Null;
    }
  }

  // -----------------------------------------------------------------------------------
  // All blocks in use
  // -----------------------------------------------------------------------------------

  /** One bottom index of `GC_apply_to_all_blocks`, from its end. */
  method VisitBottom(idx: Index, key: nat, hdrs: Headers, ghost owner: map<nat, nat>, before: seq<nat>) returns (visited: seq<nat>)
    requires idx.Valid() && Refines(idx.nodes, hdrs, owner) && key in idx.nodes
    requires NoRepeats(before) && forall x :: x in before ==> x < key * BOTTOM_SZ
    ensures NoRepeats(visited)
    ensures forall x :: x in visited <==>
              x in before || (key * BOTTOM_SZ <= x < (key + 1) * BOTTOM_SZ && Wanted(hdrs, x, false))
  {
    IndexSizes(idx.nodes, idx.order);
    hide Listed, TopOk, Refines, Tiled;
    visited := before;
    var j: int := BOTTOM_SZ - 1;
    while j >= 0
      invariant j < BOTTOM_SZ && NoRepeats(visited)
      invariant forall x: nat :: x in visited <==>
        x in before || (key * BOTTOM_SZ <= x < (key + 1) * BOTTOM_SZ && x > key * BOTTOM_SZ + j && Wanted(hdrs, x, false))
    {
      var x := key * BOTTOM_SZ + j;
      EntryIsCell(idx.nodes, key, j);
      NilMeansNoBlock(idx.nodes, hdrs, owner, x);
      match idx.nodes[key].index[j] {
        case Nil =>
          j := j - 1;
        case Forward(n) =>
          JumpStaysInBlock(idx.nodes, hdrs, owner, x);
          j := j - n;
        case Head =>
          if hdrs[x].Used? {
            assert x !in visited;
            visited := visited + [x];
          }
          j := j - 1;
      }
    }
  }

  /** `GC_apply_to_all_blocks`: the blocks it applies a function to, in order. */
  method ApplyToAllBlocks(idx: Index, hdrs: Headers, ghost owner: map<nat, nat>) returns (visited: seq<nat>)
    requires idx.Valid() && Refines(idx.nodes, hdrs, owner)
    ensures NoRepeats(visited) && forall b :: b in visited <==> b in UsedOf(hdrs)
  {
    visited := [];
    var bi := idx.first;
    ghost var t: nat := 0;
    GapHasNone(idx.nodes, hdrs, owner, idx.order, -1, false);
    while bi != Null
      invariant t <= |idx.order| && bi == LinkAt(idx.order, t) && NoRepeats(visited)
      invariant bi.To? ==> forall x: nat :: x in visited <==> x < bi.key * BOTTOM_SZ && Wanted(hdrs, x, false)
      invariant bi == Null ==> forall x: nat :: x in visited <==> Wanted(hdrs, x, false)
      decreases |idx.order| - t
    {
      assert NodeListed(idx.nodes, idx.order, t);
      visited := VisitBottom(idx, bi.key, hdrs, owner, visited);
      GapHasNone(idx.nodes, hdrs, owner, idx.order, t, false);
      assert t + 1 < |idx.order| ==> idx.order[t] < idx.order[t + 1];
      bi, t := idx.nodes[bi.key].asc, t + 1;
    }
  }

  // -----------------------------------------------------------------------------------
  // From an address inside an object to its base
  // -----------------------------------------------------------------------------------

  const WORD_BYTES: nat := 8

  /** `o` is the byte address of an object of the block in use at `b`: a large block holds one object. */
  ghost predicate IsObject(hdrs: Headers, b: nat, o: nat) {
    && b in hdrs && hdrs[b].Used?
    && var sz := hdrs[b].sz;
      if sz > HBLKSIZE then o == b * HBLKSIZE
      else exists k: nat :: o == b * HBLKSIZE + k * sz && o + sz <= (b + 1) * HBLKSIZE
  }

  /** Byte address `p` lies in the object at `o`. */
  ghost predicate Inside(hdrs: Headers, b: nat, o: nat, p: nat) {
    IsObject(hdrs, b, o) && o <= p < o + hdrs[b].sz
  }

  /** Object sizes are whole numbers of granules of 16 bytes. */
  ghost predicate SizesOk(hdrs: Headers) {
    forall b :: b in hdrs && hdrs[b].Used? ==> hdrs[b].sz > 0 && hdrs[b].sz % 16 == 0
  }

  lemma SameMultiple(x: nat, k: nat, l: nat, sz: nat, p: nat)
    requires x + k * sz <= p < x + k * sz + sz && x + l * sz <= p < x + l * sz + sz
    ensures k == l
  {
    MultiplesApart(k, l, sz, p - x);
  }

  /** There is at most one object at an address. */
  lemma ObjectIsUnique(hdrs: Headers, b: nat, o: nat, o': nat, p: nat)
    requires Inside(hdrs, b, o, p) && Inside(hdrs, b, o', p)
    ensures o == o'
  {
    var sz := hdrs[b].sz;
    if sz <= HBLKSIZE {
      var k: nat :| o == b * HBLKSIZE + k * sz;
      var l: nat :| o' == b * HBLKSIZE + l * sz;
      SameMultiple(b * HBLKSIZE, k, l, sz, p);
    }
  }

  /** Rounding an address in a block down to a word does not leave the object it is in. */
  lemma RoundingStays(sz: nat, d: nat, q: nat)
    requires sz > 0 && sz % 16 == 0 && q * sz <= d < q * sz + sz
    ensures q * sz <= d - d % WORD_BYTES < q * sz + sz
  {
    MultipleOfWord(q, sz);
    RoundingDown(q * sz, d);
  }

  lemma RoundingDown(m: nat, d: nat)
    requires m % WORD_BYTES == 0 && m <= d
    ensures m <= d - d % WORD_BYTES <= d
  {
  }

  lemma MultipleOfWord(q: nat, sz: nat)
    requires sz % 16 == 0
    ensures (q * sz) % WORD_BYTES == 0
  {
    var m := sz / 16;
    assert q * sz == 8 * (2 * q * m);
  }

  /** Whatever object an address is in, it is one of the block that owns the address. */
  lemma InsideOwnBlock(hdrs: Headers, owner: map<nat, nat>, b: nat, o: nat, p: nat)
    requires Tiled(hdrs, owner) && Inside(hdrs, b, o, p)
    ensures p / HBLKSIZE in owner && owner[p / HBLKSIZE] == b
  {
    var sz := hdrs[b].sz;
    assert o >= b * HBLKSIZE && p < b * HBLKSIZE + ObjSzToBlocks(sz) * HBLKSIZE;
    assert InBlock(hdrs, b, p / HBLKSIZE);
  }

  /** The arithmetic of `GC_base` on an address in the first heap block of an object's block. */
  function BaseOf(a: nat, sz: nat): (r: nat)
    requires sz > 0
  {
    var w := a - a % WORD_BYTES;
    Remainder(w % HBLKSIZE, sz);
    w - w % HBLKSIZE % sz
  }

  lemma BaseOfAt(a: nat, h: nat, d: nat, sz: nat, q: nat)
    requires sz > 0 && sz % 16 == 0 && a == h * HBLKSIZE + d && d < HBLKSIZE && q * sz <= d < q * sz + sz
    ensures BaseOf(a, sz) == h * HBLKSIZE + q * sz
  {
    RoundedOffset(a, h, d);
    RoundingStays(sz, d, q);
    QuotientIs(d - d % WORD_BYTES, sz, q);
  }

  lemma ModShift(k: nat, d: nat)
    ensures (WORD_BYTES * k + d) % WORD_BYTES == d % WORD_BYTES
  {
  }

  lemma RoundedOffset(a: nat, h: nat, d: nat)
    requires a == h * HBLKSIZE + d && d < HBLKSIZE
    ensures a - a % WORD_BYTES == h * HBLKSIZE + (d - d % WORD_BYTES)
    ensures (a - a % WORD_BYTES) % HBLKSIZE == d - d % WORD_BYTES
  {
    var k := HBLKSIZE / WORD_BYTES * h;
    assert a == WORD_BYTES * k + d;
    ModShift(k, d);
    QuotientIs(a - a % WORD_BYTES, HBLKSIZE, h);
  }

  lemma BaseOfLarge(a: nat, h: nat, d: nat, sz: nat)
    requires sz > HBLKSIZE && a == h * HBLKSIZE + d && d < HBLKSIZE
    ensures BaseOf(a, sz) == h * HBLKSIZE
  {
    RoundedOffset(a, h, d);
    Remainder(d - d % WORD_BYTES, sz);
  }

  lemma SmallInside(hdrs: Headers, h: nat, p: nat, d: nat, q: nat, o: nat)
    requires SizesOk(hdrs) && h in hdrs && hdrs[h].Used? && hdrs[h].sz <= HBLKSIZE && p == h * HBLKSIZE + d
    requires var sz := hdrs[h].sz; q * sz <= d < q * sz + sz
    ensures var sz := hdrs[h].sz; var base := h * HBLKSIZE + q * sz;
      Inside(hdrs, h, o, p) <==> o == base && base + sz <= (h + 1) * HBLKSIZE
  {
    var sz := hdrs[h].sz;
    if Inside(hdrs, h, o, p) {
      var k: nat :| o == h * HBLKSIZE + k * sz;
      MultiplesApart(k, q, sz, d);
    }
  }

  lemma OnlyItsOwner(nodes: Nodes, hdrs: Headers, owner: map<nat, nat>, p: nat)
    requires Refines(nodes, hdrs, owner)
    ensures forall b, o :: Inside(hdrs, b, o, p) ==> p / HBLKSIZE in owner && owner[p / HBLKSIZE] == b
    ensures forall b, o :: Inside(hdrs, b, o, p) ==> CellAt(nodes, p / HBLKSIZE) != Nil
  {
    NilMeansNoBlock(nodes, hdrs, owner, p / HBLKSIZE);
    forall b, o | Inside(hdrs, b, o, p) ensures p / HBLKSIZE in owner && owner[p / HBLKSIZE] == b {
      InsideOwnBlock(hdrs, owner, b, o, p);
    }
  }

  /** What the arithmetic at the end of `GC_base` finds in the block `h` that the address belongs to. */
  lemma BaseFacts(hdrs: Headers, owner: map<nat, nat>, h: nat, p: nat, a: nat, base: nat)
    requires Tiled(hdrs, owner) && SizesOk(hdrs) && h in hdrs && hdrs[h].Used?
    requires p / HBLKSIZE in owner && owner[p / HBLKSIZE] == h
    requires a == (if p / HBLKSIZE == h then p else h * HBLKSIZE) && base == BaseOf(a, hdrs[h].sz)
    ensures var sz := hdrs[h].sz;
      if (base + sz > (h + 1) * HBLKSIZE && sz <= HBLKSIZE) || p >= base + sz
      then forall o: nat :: !Inside(hdrs, h, o, p) else Inside(hdrs, h, base, p)
  {
    var sz := hdrs[h].sz;
    assert InBlock(hdrs, h, p / HBLKSIZE);
    hide BaseOf, Tiled;
    if sz <= HBLKSIZE {
      var q := Quotient(p % HBLKSIZE, sz);
      BaseOfAt(p, h, p % HBLKSIZE, sz, q);
      SmallInside(hdrs, h, p, p % HBLKSIZE, q, base);
      forall o: nat ensures Inside(hdrs, h, o, p) ==> o == base {
        SmallInside(hdrs, h, p, p % HBLKSIZE, q, o);
      }
    } else {
      BaseOfLarge(a, h, a % HBLKSIZE, sz);
    }
  }

  /** `GC_base`: the base of the object that address `p` is in, or null if it is in none. */
  method Base(idx: Index, p: nat, hdrs: Headers, ghost owner: map<nat, nat>) returns (r: Link)
    requires idx.Valid() && Refines(idx.nodes, hdrs, owner) && SizesOk(hdrs)
    ensures r.To? ==> exists b :: Inside(hdrs, b, r.key, p)
    ensures r == Null ==> forall b, o :: !Inside(hdrs, b, o, p)
  {
    var h := p / HBLKSIZE;
    var c := idx.Hdr(h);
    OnlyItsOwner(idx.nodes, hdrs, owner, p);
    if c == Nil {
      return Null;
    }
    var a := p;
    if c.Forward? {
      h := FollowCounts(idx, h, hdrs, owner);
      a := h * HBLKSIZE;
    }
    HeadOwnsItself(idx.nodes, hdrs, owner, p / HBLKSIZE);
    NilMeansNoBlock(idx.nodes, hdrs, owner, p / HBLKSIZE);
    if hdrs[h].Free? {
      return Null;
    }
    hide Listed, TopOk, Refines, Tiled, Inside, BaseOf;
    var sz := hdrs[h].sz;
    var base := BaseOf(a, sz);
    BaseFacts(hdrs, owner, h, p, a, base);
    var limit := base + sz;
    if limit > (h + 1) * HBLKSIZE && sz <= HBLKSIZE {
      return Null;
    }
    if p >= limit {
      return Null;
    }
    return To(base);
  }
}
