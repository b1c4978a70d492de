/**
 Free lists of small objects. They are singly linked through the first word of the free objects;
 there is one for every kind and size, and every thread has some of its own.
 */
module SweepLists {

  const HBLK_GRANULES: nat := 256
  const MAXOBJGRANULES: nat := 128
  const TINY_FREELISTS: nat := 25

  /** The `idx`-th object of a block. */
  datatype Slot = Slot(blk: nat, idx: nat)

  datatype Ptr = Nil | To(slot: Slot)

  /** What a list or block is for: objects of one kind with this number of granules. */
  datatype Class = Class(kind: nat, gran: nat)

  /** A free list of the allocator, or the `index`-th of a thread. */
  datatype ListId = Global(kind: nat, gran: nat) | Local(thread: nat, kind: nat, index: nat) {
    /** The list of a thread with index 0 really holds objects of one granule. */
    function Cls(): Class {
      match this
      case Global(k, g) => Class(k, g)
      case Local(_, k, i) => Class(k, if i == 0 then 1 else i)
    }
  }

  /** How many objects a block with objects of that size has. */
  function Objs(gran: nat): nat {
    if gran == 0 then 0 else if gran > MAXOBJGRANULES then 1 else HBLK_GRANULES / gran
  }

  function At(l: seq<Slot>, j: int): Ptr {
    if 0 <= j < |l| then To(l[j]) else Nil
  }

  type Links = map<Slot, Ptr>
  type Heads = map<ListId, Ptr>
  type Lists = map<ListId, seq<Slot>>
  /** Which list a slot is on. */
  type Homes = map<Slot, ListId>

  predicate NoRepeats(l: seq<Slot>) {
    forall j, k :: 0 <= j < k < |l| ==> l[j] != l[k]
  }

  /** Following the links from `p` gives `l` and then ends. */
  ghost predicate Chain(link: Links, p: Ptr, l: seq<Slot>) {
    && p == At(l, 0)
    && (forall k :: 0 <= k < |l| ==> l[k] in link && link[l[k]] == At(l, k + 1))
  }

  /** Slot `s` is at home on list `id`. */
  predicate On(home: Homes, id: ListId, s: Slot) {
    s in home && home[s] == id
  }

  /** `l` is the list that starts at `p`, and has each of its slots once. */
  ghost predicate ListOk(link: Links, p: Ptr, l: seq<Slot>, home: Homes, id: ListId) {
    && Chain(link, p, l) && NoRepeats(l)
    && (forall s :: s in l <==> On(home, id, s))
  }

  /** The lists are as the heads and links say, and no slot is on two or twice on one. */
  ghost predicate ListsOk(link: Links, head: Heads, lists: Lists, home: Homes) {
    && head.Keys == lists.Keys
    && (forall id :: id in lists ==> ListOk(link, head[id], lists[id], home, id))
    && (forall s :: s in home ==> home[s] in lists)
  }

  function HomesPlus(home: Homes, news: seq<Slot>, id: ListId): (r: Homes)
    ensures forall s :: s in r <==> s in home || s in news
    ensures forall s :: s in r ==> r[s] == id || (s in home && r[s] == home[s])
    ensures forall i, s :: On(r, i, s) <==> if s in news then i == id else On(home, i, s)
  {
    home + map s | s in news :: id
  }

  /** The homes of slots other than those of the lists in `gone`. */
  function HomesLess(home: Homes, gone: set<ListId>): Homes {
    map s | s in home && home[s] !in gone :: home[s]
  }

  // -----------------------------------------------------------------------------------
  // Chains
  // -----------------------------------------------------------------------------------

  lemma ChainPush(link: Links, p: Ptr, l: seq<Slot>, s: Slot)
    requires Chain(link, p, l) && s !in l
    ensures Chain(link[s := p], To(s), [s] + l)
  {
    var m := [s] + l;
    forall k | 0 <= k < |m| ensures m[k] in link[s := p] && link[s := p][m[k]] == At(m, k + 1) {
      if k > 0 {
        assert m[k] == l[k - 1] && l[k - 1] in l;
        assert At(m, k + 1) == At(l, k);
      }
    }
  }

  /** Linking the end of one chain to the start of another. */
  lemma ChainJoin(link: Links, p: Ptr, l: seq<Slot>, q: Ptr, m: seq<Slot>)
    requires Chain(link, p, l) && Chain(link, q, m) && l != [] && NoRepeats(l)
    requires forall s :: s in l ==> s !in m
    ensures Chain(link[l[|l| - 1] := q], p, l + m)
  {
    var link', lm := link[l[|l| - 1] := q], l + m;
    forall k | 0 <= k < |lm| ensures lm[k] in link' && link'[lm[k]] == At(lm, k + 1) {
      if k < |l| {
        assert lm[k] == l[k];
        assert k == |l| - 1 ==> At(lm, k + 1) == At(m, 0);
        assert k < |l| - 1 ==> l[k] != l[|l| - 1] && At(lm, k + 1) == At(l, k + 1);
      } else {
        var j := k - |l|;
        assert lm[k] == m[j] && m[j] in m && l[|l| - 1] in l;
        assert At(lm, k + 1) == At(m, j + 1);
      }
    }
  }

  /** Cutting a chain after its first `n` slots. */
  lemma ChainCut(link: Links, p: Ptr, l: seq<Slot>, n: nat)
    requires Chain(link, p, l) && 0 < n <= |l| && NoRepeats(l)
    ensures Chain(link[l[n - 1] := Nil], p, l[..n]) && Chain(link[l[n - 1] := Nil], At(l, n), l[n..])
  {
    var link' := link[l[n - 1] := Nil];
    forall k | 0 <= k < n ensures l[..n][k] in link' && link'[l[..n][k]] == At(l[..n], k + 1) {
      assert k < n - 1 ==> l[k] != l[n - 1] && link[l[k]] == At(l, k + 1);
    }
    forall k | 0 <= k < |l| - n ensures l[n..][k] in link' && link'[l[n..][k]] == At(l[n..], k + 1) {
      assert l[n..][k] == l[n + k] && l[n + k] != l[n - 1];
    }
  }

  // -----------------------------------------------------------------------------------
  // All lists
  // -----------------------------------------------------------------------------------

  lemma ListAt(link: Links, head: Heads, lists: Lists, home: Homes, id: ListId)
    requires ListsOk(link, head, lists, home) && id in head
    ensures id in lists && ListOk(link, head[id], lists[id], home, id)
    ensures Chain(link, head[id], lists[id]) && NoRepeats(lists[id])
    ensures forall s :: s in lists[id] <==> On(home, id, s)
  {
  }

  lemma FirstOfList(link: Links, head: Heads, lists: Lists, home: Homes, id: ListId)
    requires ListsOk(link, head, lists, home) && id in head && head[id] != Nil
    ensures id in lists && lists[id] != [] && head[id] == To(lists[id][0]) && On(home, id, lists[id][0])
    ensures lists[id][0] in link && lists[id][0] in lists[id]
  {
    ListAt(link, head, lists, home, id);
    assert lists[id][0] in lists[id];
  }

  /** A list is not affected by what happens to slots of other lists. */
  lemma OtherList(link: Links, link': Links, p: Ptr, l: seq<Slot>, home: Homes, home': Homes, id: ListId)
    requires ListOk(link, p, l, home, id)
    requires forall s :: On(home, id, s) <==> On(home', id, s)
    requires forall s :: On(home, id, s) && s in link ==> s in link' && link'[s] == link[s]
    ensures ListOk(link', p, l, home', id)
  {
    forall k | 0 <= k < |l| ensures l[k] in link' && link'[l[k]] == At(l, k + 1) {
      assert l[k] in l;
    }
  }

  /** The lists are in order if two of them are, and nothing has happened to the others. */
  lemma AllBut(link: Links, head: Heads, lists: Lists, home: Homes,
               link': Links, head': Heads, lists': Lists, home': Homes, a: ListId, b: ListId)
    requires ListsOk(link, head, lists, home) && head'.Keys == head.Keys && lists'.Keys == lists.Keys
    requires a in lists && ListOk(link', head'[a], lists'[a], home', a)
    requires b in lists && ListOk(link', head'[b], lists'[b], home', b)
    requires forall i :: i in lists && i != a && i != b ==> head'[i] == head[i] && lists'[i] == lists[i]
    requires forall s :: s in home' ==> home'[s] in lists
    requires forall i, s :: i != a && i != b ==> (On(home, i, s) <==> On(home', i, s))
    requires forall i, s :: i != a && i != b && On(home, i, s) && s in link ==> s in link' && link'[s] == link[s]
    ensures ListsOk(link', head', lists', home')
  {
    hide ListOk;
    forall i | i in lists && i != a && i != b ensures ListOk(link', head[i], lists[i], home', i) {
      OtherList(link, link', head[i], lists[i], home, home', i);
    }
  }

  /** Slots that are on no list can be put in front of one. */
  lemma Extend(link: Links, head: Heads, lists: Lists, home: Homes, link': Links, p: Ptr, id: ListId, news: seq<Slot>)
    requires ListsOk(link, head, lists, home) && id in lists
    requires NoRepeats(news) && (forall s :: s in news ==> s !in home)
    requires forall s :: s in home && s in link ==> s in link' && link'[s] == link[s]
    requires Chain(link', p, news + lists[id])
    ensures ListsOk(link', head[id := p], lists[id := news + lists[id]], HomesPlus(home, news, id))
  {
    hide Chain, NoRepeats;
    var home' := HomesPlus(home, news, id);
    ConcatOk(news, lists[id], home, id);
    forall i | i in lists && i != id ensures ListOk(link', head[i], lists[i], home', i) {
      OtherList(link, link', head[i], lists[i], home, home', i);
    }
  }

  lemma ConcatOk(news: seq<Slot>, l: seq<Slot>, home: Homes, id: ListId)
    requires NoRepeats(news) && NoRepeats(l) && (forall s :: s in news ==> !On(home, id, s))
    requires forall s :: s in l <==> On(home, id, s)
    ensures NoRepeats(news + l)
    ensures forall s :: s in news + l <==> On(HomesPlus(home, news, id), id, s)
  {
    var m := news + l;
    assert forall k :: 0 <= k < |m| ==> if k < |news| then m[k] in news else m[k] in l;
  }

  /** Taking the first slot off a list; its link may then be anything. */
  lemma Pop(link: Links, head: Heads, lists: Lists, home: Homes, id: ListId, v: Ptr)
    requires ListsOk(link, head, lists, home) && id in lists && lists[id] != []
    ensures var s := lists[id][0];
      && s in link && On(home, id, s) && link[s] == At(lists[id], 1)
      && ListsOk(link[s := v], head[id := link[s]], lists[id := lists[id][1..]], home - {s})
  {
    var s, l := lists[id][0], lists[id];
    var link', home' := link[s := v], home - {s};
    assert ListOk(link, head[id], l, home, id);
    assert s in l;
    TailOk(link, head[id], l, home, id, v);
    hide ListOk;
    forall i | i in lists && i != id ensures ListOk(link', head[i], lists[i], home', i) {
      OtherList(link, link', head[i], lists[i], home, home', i);
    }
  }

  lemma TailOk(link: Links, p: Ptr, l: seq<Slot>, home: Homes, id: ListId, v: Ptr)
    requires ListOk(link, p, l, home, id) && l != []
    ensures ListOk(link[l[0] := v], At(l, 1), l[1..], home - {l[0]}, id)
  {
    ChainTail(link, p, l, v);
    var t := l[1..];
    assert l == [l[0]] + t;
    assert forall s :: s in l <==> s == l[0] || s in t;
    hide Chain;
  }

  lemma ChainTail(link: Links, p: Ptr, l: seq<Slot>, v: Ptr)
    requires Chain(link, p, l) && NoRepeats(l) && l != []
    ensures Chain(link[l[0] := v], At(l, 1), l[1..]) && NoRepeats(l[1..]) && l[0] !in l[1..]
  {
    var t := l[1..];
    assert forall k :: 0 <= k < |t| ==> t[k] == l[k + 1];
    forall k | 0 <= k < |t| ensures t[k] in link && link[l[0] := v][t[k]] == At(t, k + 1) {
      assert link[l[k + 1]] == At(l, k + 2);
    }
  }

  /** The links of slots that are on no list do not matter. */
  lemma FreeLink(link: Links, head: Heads, lists: Lists, home: Homes, s: Slot, v: Ptr)
    requires ListsOk(link, head, lists, home) && s !in home
    ensures ListsOk(link[s := v], head, lists, home)
  {
    hide ListOk;
    forall i | i in lists ensures ListOk(link[s := v], head[i], lists[i], home, i) {
      OtherList(link, link[s := v], head[i], lists[i], home, home, i);
    }
  }

  function EmptyHeads(head: Heads, gone: set<ListId>): Heads {
    map i | i in head :: if i in gone then Nil else head[i]
  }

  function EmptyLists(lists: Lists, gone: set<ListId>): Lists {
    map i | i in lists :: if i in gone then [] else lists[i]
  }

  /** Emptying lists. */
  lemma Empty(link: Links, head: Heads, lists: Lists, home: Homes, link': Links, gone: set<ListId>)
    requires ListsOk(link, head, lists, home)
    requires forall s :: s in link && !(s in home && home[s] in gone) ==> s in link' && link'[s] == link[s]
    ensures ListsOk(link', EmptyHeads(head, gone), EmptyLists(lists, gone), HomesLess(home, gone))
  {
    var head', lists', home' := EmptyHeads(head, gone), EmptyLists(lists, gone), HomesLess(home, gone);
    forall i | i in lists' ensures ListOk(link', head'[i], lists'[i], home', i) {
      hide ListOk;
      if i in gone {
        NothingThere(link', home', i);
      } else {
        OtherList(link, link', head[i], lists[i], home, home', i);
      }
    }
  }

  lemma NothingThere(link: Links, home: Homes, id: ListId)
    requires forall s :: !On(home, id, s)
    ensures ListOk(link, Nil, [], home, id)
  {
  }

  /** Putting all of one list in front of another. */
  lemma Join(link: Links, head: Heads, lists: Lists, home: Homes, from: ListId, to: ListId)
    requires ListsOk(link, head, lists, home) && from in lists && to in lists && from != to && lists[from] != []
    ensures var l := lists[from]; var last := l[|l| - 1];
      ListsOk(link[last := head[to]], head[to := head[from]][from := Nil],
              lists[to := l + lists[to]][from := []], HomesPlus(home, l, to))
  {
    var l, m := lists[from], lists[to];
    var last := l[|l| - 1];
    assert ListOk(link, head[from], l, home, from) && ListOk(link, head[to], m, home, to);
    assert last in l;
    ChainJoin(link, head[from], l, head[to], m);
    ConcatOk(l, m, home, to);
    var link', home' := link[last := head[to]], HomesPlus(home, l, to);
    forall s | s in l ensures On(home, from, s) {
    }
    assert forall s :: !On(home', from, s);
    Joining(link, head, lists, home, from, to, link', home');
  }

  lemma Joining(link: Links, head: Heads, lists: Lists, home: Homes, from: ListId, to: ListId, link': Links, home': Homes)
    requires ListsOk(link, head, lists, home) && from in lists && to in lists && from != to
    requires var l := lists[from] + lists[to];
      Chain(link', head[from], l) && NoRepeats(l) && (forall s :: s in l <==> On(home', to, s))
    requires forall s :: !On(home', from, s)
    requires forall s :: s in home' ==> home'[s] in lists
    requires forall i, s :: i != from && i != to ==> (On(home, i, s) <==> On(home', i, s))
    requires forall i, s :: i != from && i != to && On(home, i, s) && s in link ==> s in link' && link'[s] == link[s]
    ensures ListsOk(link', head[to := head[from]][from := Nil], lists[to := lists[from] + lists[to]][from := []], home')
  {
    hide ListOk, Chain, NoRepeats;
    NothingThere(link', home', from);
    Listed(link', head[from], lists[from] + lists[to], home', to);
    AllBut(link, head, lists, home, link', head[to := head[from]][from := Nil],
           lists[to := lists[from] + lists[to]][from := []], home', from, to);
  }

  lemma Listed(link: Links, p: Ptr, l: seq<Slot>, home: Homes, id: ListId)
    requires Chain(link, p, l) && NoRepeats(l) && (forall s :: s in l <==> On(home, id, s))
    ensures ListOk(link, p, l, home, id)
  {
  }

  /** Moving the first `n` slots of a list to an empty one. */
  lemma Cut(link: Links, head: Heads, lists: Lists, home: Homes, from: ListId, to: ListId, n: nat)
    requires ListsOk(link, head, lists, home) && from in lists && to in lists && from != to && lists[to] == []
    requires 0 < n <= |lists[from]|
    ensures var l := lists[from];
      ListsOk(link[l[n - 1] := Nil], head[from := At(l, n)][to := head[from]],
              lists[from := l[n..]][to := l[..n]], HomesPlus(home, l[..n], to))
  {
    hide NoRepeats, HomesPlus;
    var l := lists[from];
    assert ListOk(link, head[from], l, home, from) && ListOk(link, head[to], [], home, to);
    ChainCut(link, head[from], l, n);
    var link', home' := link[l[n - 1] := Nil], HomesPlus(home, l[..n], to);
    assert l[n - 1] in l;
    CutHomes(l, n, home, from, to);
    hide ListOk, Chain;
    Cutting(link, head, lists, home, from, to, n, link', home');
  }

  lemma Cutting(link: Links, head: Heads, lists: Lists, home: Homes, from: ListId, to: ListId, n: nat,
                link': Links, home': Homes)
    requires ListsOk(link, head, lists, home) && from in lists && to in lists && from != to && n <= |lists[from]|
    requires var l := lists[from];
      && Chain(link', head[from], l[..n]) && NoRepeats(l[..n]) && (forall s :: s in l[..n] <==> On(home', to, s))
      && Chain(link', At(l, n), l[n..]) && NoRepeats(l[n..]) && (forall s :: s in l[n..] <==> On(home', from, s))
    requires forall s :: s in home' ==> home'[s] in lists
    requires forall i, s :: i != from && i != to ==> (On(home, i, s) <==> On(home', i, s))
    requires forall i, s :: i != from && i != to && On(home, i, s) && s in link ==> s in link' && link'[s] == link[s]
    ensures var l := lists[from];
      ListsOk(link', head[from := At(l, n)][to := head[from]], lists[from := l[n..]][to := l[..n]], home')
  {
    hide ListOk, Chain, NoRepeats;
    var l := lists[from];
    Listed(link', head[from], l[..n], home', to);
    Listed(link', At(l, n), l[n..], home', from);
    AllBut(link, head, lists, home, link', head[from := At(l, n)][to := head[from]],
           lists[from := l[n..]][to := l[..n]], home', from, to);
  }

  lemma Halves(l: seq<Slot>, n: nat)
    requires n <= |l| && NoRepeats(l)
    ensures NoRepeats(l[..n]) && NoRepeats(l[n..])
    ensures forall s :: s in l <==> s in l[..n] || s in l[n..]
    ensures forall s :: s in l[n..] ==> s !in l[..n]
  {
    assert l == l[..n] + l[n..];
    assert forall k :: 0 <= k < |l| - n ==> l[n..][k] == l[n + k];
  }

  lemma CutHomes(l: seq<Slot>, n: nat, home: Homes, from: ListId, to: ListId)
    requires n <= |l| && NoRepeats(l) && from != to
    requires (forall s :: s in l <==> On(home, from, s)) && forall s :: !On(home, to, s)
    ensures var home' := HomesPlus(home, l[..n], to);
      && NoRepeats(l[..n]) && (forall s :: s in l[..n] <==> On(home', to, s))
      && NoRepeats(l[n..]) && (forall s :: s in l[n..] <==> On(home', from, s))
      && (forall s :: s in l[..n] ==> On(home, from, s))
  {
    hide NoRepeats, HomesPlus;
    var front, back, home' := l[..n], l[n..], HomesPlus(home, l[..n], to);
    Halves(l, n);
    forall s ensures s in front <==> On(home', to, s) {
      assert !On(home, to, s);
    }
    forall s ensures s in back <==> On(home', from, s) {
    }
  }
}
