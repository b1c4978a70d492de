/** The heap as the collector sees it: objects, and the pointers found in each of them. */
module ObjectGraph {
  import opened Sets

  /** An object: the block whose header describes it, and its index in that block. */
  datatype Obj = Obj(blk: nat, slot: nat)

  /** The pointers found in every object, in the order in which a scan meets them. */
  type Graph = map<Obj, seq<Obj>>

  /** `o` is at the end of a chain of exactly `n` pointers that starts in `from`. */
  ghost predicate ReachesIn(g: Graph, from: set<Obj>, o: Obj, n: nat)
    decreases n
  {
    if n == 0 then o in from
    else exists p :: p in g && o in g[p] && ReachesIn(g, from, p, n - 1)
  }

  ghost predicate Reaches(g: Graph, from: set<Obj>, o: Obj) {
    exists n: nat :: ReachesIn(g, from, o, n)
  }

  /** Following pointers from a member of `s` never leaves `s`. */
  ghost predicate Closed(g: Graph, s: set<Obj>) {
    forall p, q :: p in s && p in g && q in g[p] ==> q in s
  }

  lemma ReachesSelf(g: Graph, from: set<Obj>, o: Obj)
    requires o in from
    ensures Reaches(g, from, o)
  {
    assert ReachesIn(g, from, o, 0);
  }

  lemma ReachesStep(g: Graph, from: set<Obj>, p: Obj, q: Obj)
    requires Reaches(g, from, p) && p in g && q in g[p]
    ensures Reaches(g, from, q)
  {
    var n: nat :| ReachesIn(g, from, p, n);
    assert ReachesIn(g, from, q, n + 1);
  }

  lemma {:induction false} ClosedContainsChain(g: Graph, from: set<Obj>, s: set<Obj>, o: Obj, n: nat)
    requires from <= s && Closed(g, s) && ReachesIn(g, from, o, n)
    ensures o in s
    decreases n
  {
    if n > 0 {
      var p :| p in g && o in g[p] && ReachesIn(g, from, p, n - 1);
      ClosedContainsChain(g, from, s, p, n - 1);
    }
  }

  /** A closed set that holds the starting points holds everything reachable from them. */
  lemma ClosedContainsReachable(g: Graph, from: set<Obj>, s: set<Obj>)
    requires from <= s && Closed(g, s)
    ensures forall o :: Reaches(g, from, o) ==> o in s
  {
    forall o | Reaches(g, from, o)
      ensures o in s
    {
      var n: nat :| ReachesIn(g, from, o, n);
      ClosedContainsChain(g, from, s, o, n);
    }
  }

  lemma {:induction false} ReachesThroughChain(g: Graph, from: set<Obj>, mid: set<Obj>, o: Obj, n: nat)
    requires forall m :: m in mid ==> Reaches(g, from, m)
    requires ReachesIn(g, mid, o, n)
    ensures Reaches(g, from, o)
    decreases n
  {
    if n > 0 {
      var p :| p in g && o in g[p] && ReachesIn(g, mid, p, n - 1);
      ReachesThroughChain(g, from, mid, p, n - 1);
      ReachesStep(g, from, p, o);
    }
  }

  /** Reachability composes. */
  lemma ReachesThrough(g: Graph, from: set<Obj>, mid: set<Obj>)
    requires forall m :: m in mid ==> Reaches(g, from, m)
    ensures forall o :: Reaches(g, mid, o) ==> Reaches(g, from, o)
  {
    forall o | Reaches(g, mid, o)
      ensures Reaches(g, from, o)
    {
      var n: nat :| ReachesIn(g, mid, o, n);
      ReachesThroughChain(g, from, mid, o, n);
    }
  }

  /** A strictly larger part of a finite set leaves strictly less of it over. */
  lemma SmallerRest(all: set<Obj>, before: set<Obj>, after: set<Obj>)
    requires before < after <= all
    ensures |all - after| < |all - before|
  {
    assert exists x :: x in after && x !in before;
    var x :| x in after && x !in before;
    assert all - after <= (all - before) - {x};
    SubsetCardinality(all - after, (all - before) - {x});
  }
}
