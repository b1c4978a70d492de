/**
 Parallel marking comes to an end. Every step of a helper, spurious wakeups and races for a mark bit
 excepted, brings down a measure of the work left, in whatever order the helpers take their steps. As
 somebody can always go on until the initiator has returned, it does return.
 */
module ParallelTermination {
  import opened ObjectGraph
  import opened MarkPhase
  import opened ParallelMark

  // -----------------------------------------------------------------------------------
  // Sums over all helpers
  // -----------------------------------------------------------------------------------

  ghost function Sum(m: map<Id, nat>): nat
    decreases m.Keys
  {
    if m == map[] then 0
    else
      var k :| k in m;
      m[k] + Sum(m - {k})
  }

  lemma {:induction false} SumWithout(m: map<Id, nat>, x: Id)
    requires x in m
    ensures Sum(m) == m[x] + Sum(m - {x})
    decreases m.Keys
  {
    var k :| k in m && Sum(m) == m[k] + Sum(m - {k});
    if k != x {
      SumWithout(m - {k}, x);
      SumWithout(m - {x}, k);
      assert m - {k} - {x} == m - {x} - {k};
    }
  }

  /** No value has grown, or none by more than one. */
  lemma {:induction false} SumGrows(m: map<Id, nat>, z: map<Id, nat>, byOne: bool)
    requires m.Keys == z.Keys && forall k :: k in m ==> z[k] <= m[k] + One(byOne)
    ensures Sum(z) <= Sum(m) + if byOne then |m| else 0
    decreases m.Keys
  {
    if m != map[] {
      var k :| k in m;
      SumWithout(m, k);
      SumWithout(z, k);
      SumGrows(m - {k}, z - {k}, byOne);
      OneFewer(m, k);
    } else {
      assert z == map[];
    }
  }

  lemma OneFewer(m: map<Id, nat>, k: Id)
    requires k in m
    ensures |m - {k}| == |m| - 1
  {
    assert (m - {k}).Keys == m.Keys - {k};
    assert |m| == |m.Keys|;
  }

  /** One value has fallen, by more than the others have risen. */
  lemma SumStep(m: map<Id, nat>, z: map<Id, nat>, x: Id, byOne: bool)
    requires m.Keys == z.Keys && x in m && forall k :: k in m && k != x ==> z[k] <= m[k] + One(byOne)
    ensures z[x] <= m[x] && !byOne ==> Sum(z) <= Sum(m)
    ensures z[x] + (if byOne then |m| else 0) < m[x] ==> Sum(z) < Sum(m)
  {
    SumWithout(m, x);
    SumWithout(z, x);
    SumGrows(m - {x}, z - {x}, byOne);
    OneFewer(m, x);
  }

  // -----------------------------------------------------------------------------------
  // The work left
  // -----------------------------------------------------------------------------------

  function Minus(a: nat, b: nat): nat {
    if a <= b then 0 else a - b
  }

  /** The slot of the shared stack that the helper looks at next. */
  function Position(x: Helper): nat {
    match x.pc
    case Stealing(p, _, _, _) => p
    case Taking(p, _, _, _, _) => p
    case _ => x.first
  }

  /** How many of the `n` slots the helper has still to look at. */
  function Behind(n: nat, x: Helper): nat {
    if InLoop(x.pc) then Minus(n, Position(x)) else 0
  }

  /** The entries in the hands of the helper. */
  function Entries(x: Helper): nat {
    |x.local| + One(x.pc.Scanning?)
  }

  function Pointers(x: Helper): nat {
    if x.pc.Scanning? then |x.pc.rest| else 0
  }

  predicate MaySteal(n: nat, pc: Pc) {
    pc.Stealing? && pc.p < pc.high && pc.p < n && pc.got <= pc.max
  }

  /**
   How far the helper is from going to sleep, if no work turns up, where the shared index is `first`
   of `n`. If it lags behind, the helper goes round once more, to raise it.
   */
  function Phase(n: nat, first: nat, x: Helper): nat {
    var again := first < n <= x.first;
    match x.pc
    case Notify => 20
    case Local => 19
    case Scanning(_, _) => 18
    case Sync => if again then 10 else 6
    case Cas(seen) => if !again then 5 else if seen == first then 9 else 13
    case ReadTop => if again then 12 else 4
    case Lock => if again then 11 else 3
    case Stealing(_, _, _, _) => if MaySteal(n, x.pc) then 2 else 21
    case Taking(_, _, _, _, _) => 1
    case Waiting(_) => if first < n then 14 else 1
    case _ => 0
  }

  /** Being woken up raises the rank by one, and a step to a lower phase brings it down by more than all of them. */
  function Rank(helpers: nat, n: nat, first: nat, x: Helper): nat {
    (helpers + 1) * Phase(n, first, x) + One(x.pc == Waiting(false) || x.pc == Draining(false))
  }

  datatype Work = Work(out: nat, unmarked: nat, room: nat, behind: nat, lag: nat, entries: nat, ranks: nat, pointers: nat)

  ghost function Behinds(s: State): map<Id, nat> { map h | h in s.helpers :: Behind(|s.slots|, s.helpers[h]) }
  ghost function AllEntries(s: State): map<Id, nat> { map h | h in s.helpers :: Entries(s.helpers[h]) }
  ghost function AllPointers(s: State): map<Id, nat> { map h | h in s.helpers :: Pointers(s.helpers[h]) }
  ghost function Ranks(s: State): map<Id, nat> {
    map h | h in s.helpers :: Rank(|s.helpers|, |s.slots|, s.firstNonempty, s.helpers[h])
  }

  ghost function OutSet(s: State): set<Id> {
    set h | h in s.helpers && s.helpers[h].pc == Out
  }

  ghost function WorkLeft(s: State): Work {
    Work(|OutSet(s)|, Unmarked(s.heap.fields, s.marked), Minus(s.capacity, |s.slots|), Sum(Behinds(s)),
         Minus(|s.slots|, s.firstNonempty), Sum(AllEntries(s)), Sum(Ranks(s)), Sum(AllPointers(s)))
  }

  /** Less work, in lexicographic order. */
  predicate Less(a: Work, b: Work) {
    || a.out < b.out
    || (a.out == b.out && a.unmarked < b.unmarked)
    || (a.out == b.out && a.unmarked == b.unmarked && a.room < b.room)
    || (a.out == b.out && a.unmarked == b.unmarked && a.room == b.room && LessStill(a, b))
  }

  predicate LessStill(a: Work, b: Work) {
    || a.behind < b.behind
    || (a.behind == b.behind && a.lag < b.lag)
    || (a.behind == b.behind && a.lag == b.lag && a.entries < b.entries)
    || (a.behind == b.behind && a.lag == b.lag && a.entries == b.entries && a.ranks < b.ranks)
    || (a.behind == b.behind && a.lag == b.lag && a.entries == b.entries && a.ranks == b.ranks && a.pointers < b.pointers)
  }

  /** A step that is neither a spurious wakeup nor a race. */
  ghost predicate Proceeds(s: State, a: Action) {
    Allowed(s, a) && !a.Wake? && (a.MarkNext? ==> !a.raced)
  }

  // -----------------------------------------------------------------------------------
  // What a step does to the acting helper
  // -----------------------------------------------------------------------------------

  /** Nothing has been marked, and nothing put on the shared stack. */
  ghost predicate SameStock(s: State, t: State) {
    t.heap == s.heap && t.marked == s.marked && |t.slots| == |s.slots| && t.capacity == s.capacity
  }

  /** The helper's own measure goes down; only its phase may do so at the price of waking others. */
  ghost predicate OwnLess(s: State, t: State, x: Id, mayWake: bool) {
    && x in s.helpers && x in t.helpers
    && var n, me, me' := |s.slots|, s.helpers[x], t.helpers[x];
    && Behind(n, me') <= Behind(n, me) && s.firstNonempty <= t.firstNonempty
    && (|| Behind(n, me') < Behind(n, me)
        || Minus(n, t.firstNonempty) < Minus(n, s.firstNonempty)
        || Entries(me') < Entries(me)
        || (Entries(me') == Entries(me) && OwnPhaseLess(s, t, me, me', mayWake)))
  }

  ghost predicate OwnPhaseLess(s: State, t: State, me: Helper, me': Helper, mayWake: bool) {
    var p, p' := Phase(|s.slots|, s.firstNonempty, me), Phase(|s.slots|, t.firstNonempty, me');
    var w, w' := One(me.pc == Waiting(false) || me.pc == Draining(false)), One(me'.pc == Waiting(false) || me'.pc == Draining(false));
    || (p' < p && w' == 0)
    || (p' == p && !mayWake && (w' < w || (w' == w && Pointers(me') < Pointers(me))))
  }

  lemma StealLess(s: State, a: Action)
    requires IndicesOk(s) && Allowed(s, a) && Steals(a)
    ensures var t := Next(s, a); SameStock(s, t) && OwnLess(s, t, a.h, false)
  {
    hide AfterMark, AfterOther, Woken, ToGet, TakenBelow;
    assert HelperOk(s, s.helpers[a.h]);
  }

  lemma ReadLess(s: State, a: Action)
    requires IndicesOk(s) && Allowed(s, a) && a.ReadFirst?
    ensures var t := Next(s, a); SameStock(s, t) && OwnLess(s, t, a.h, false)
  {
    hide AfterSteal, AfterMark, Woken, TakenBelow;
    assert HelperOk(s, s.helpers[a.h]);
  }

  lemma RaiseLess(s: State, a: Action)
    requires IndicesOk(s) && Allowed(s, a) && a.RaiseFirst?
    ensures var t := Next(s, a); SameStock(s, t) && OwnLess(s, t, a.h, false)
  {
    hide AfterSteal, AfterMark, Woken, TakenBelow;
    assert HelperOk(s, s.helpers[a.h]);
  }

  lemma LoadLess(s: State, a: Action)
    requires IndicesOk(s) && Allowed(s, a) && a.LoadTop?
    ensures var t := Next(s, a); SameStock(s, t) && OwnLess(s, t, a.h, false)
  {
    hide AfterSteal, AfterMark, Woken, TakenBelow;
    assert HelperOk(s, s.helpers[a.h]);
  }

  lemma ShareLess(s: State, a: Action)
    requires IndicesOk(s) && Allowed(s, a) && (a.ReturnAll? || a.Share?)
    ensures var t := Next(s, a);
      t.marked == s.marked && t.capacity == s.capacity && t.heap == s.heap
    ensures var t := Next(s, a);
      || (|t.slots| == |s.slots| && OwnLess(s, t, a.h, false))
      || Minus(t.capacity, |t.slots|) < Minus(s.capacity, |s.slots|)
  {
    hide AfterSteal, AfterOther, Woken, TakenBelow, Targets;
    assert HelperOk(s, s.helpers[a.h]);
  }

  lemma LocalLess(s: State, a: Action)
    requires Allowed(s, a) && (a.Pop? || a.ScanDone? || a.LocalDone?)
    ensures var t := Next(s, a); SameStock(s, t) && OwnLess(s, t, a.h, false)
  {
    hide AfterSteal, AfterOther, Woken, Targets, Returned;
  }

  lemma MarkNextLess(s: State, a: Action)
    requires Proceeds(s, a) && a.MarkNext?
    ensures var t := Next(s, a); t.heap == s.heap && t.capacity == s.capacity && t.slots == s.slots
    ensures var t, q := Next(s, a), s.helpers[a.h].pc.rest[0];
      if q in s.marked then SameStock(s, t) && OwnLess(s, t, a.h, false) else t.marked == s.marked + {q}
  {
    hide AfterSteal, AfterOther, Woken, Targets, Returned;
  }

  /** What idling makes of the helper, besides what is known of it in general. */
  lemma IdleLess(s: State, a: Action)
    requires IndicesOk(s) && Allowed(s, a) && Idles(s, a)
    ensures var t := Next(s, a);
      SameStock(s, t) && OwnLess(s, t, a.h, s.helpers[a.h].pc.Lock? || t.helpers[a.h].pc != Waiting(true))
  {
    hide Next, IndicesOk;
    ActorResolves(s, a);
    IdleKeepsFirst(s, a);
    if a.Check? {
      CheckedLess(s, Next(s, a), a.h);
    } else {
      IdledLess(s, Next(s, a), a.h);
    }
  }

  /** The helper has found nothing on the shared stack, and is idle now unless the shared index lags behind. */
  lemma IdledLess(s: State, t: State, h: Id)
    requires h in s.helpers && s.helpers[h].pc == Lock && |s.slots| <= s.helpers[h].first && Resolved(s, t, h)
    requires t.helpers[h].first == s.helpers[h].first && t.helpers[h].local == s.helpers[h].local
    ensures OwnLess(s, t, h, true)
  {
  }

  lemma CheckedLess(s: State, t: State, h: Id)
    requires h in s.helpers && s.helpers[h].pc == Waiting(false) && Resolved(s, t, h)
    requires t.helpers[h].first == s.helpers[h].first && t.helpers[h].local == s.helpers[h].local
    ensures OwnLess(s, t, h, t.helpers[h].pc != Waiting(true))
  {
  }

  lemma IdleKeepsFirst(s: State, a: Action)
    requires Allowed(s, a) && Idles(s, a)
    ensures var t := Next(s, a);
      && a.h in t.helpers && t.helpers[a.h].first == s.helpers[a.h].first && t.helpers[a.h].local == s.helpers[a.h].local
      && t.heap == s.heap && t.marked == s.marked && t.slots == s.slots && t.capacity == s.capacity
      && t.firstNonempty == s.firstNonempty
  {
    hide AfterSteal, AfterMark, Woken;
  }

  lemma RecheckLess(s: State, a: Action)
    requires IndicesOk(s) && Allowed(s, a) && a.RecheckTop? && !Idles(s, a)
    ensures var t := Next(s, a); SameStock(s, t) && OwnLess(s, t, a.h, false)
  {
    hide AfterSteal, AfterMark, TakenBelow, Idle, WokenUp;
    assert HelperOk(s, s.helpers[a.h]);
  }

  lemma NotifyLess(s: State, a: Action)
    requires IndicesOk(s) && Allowed(s, a) && a.NotifyAll?
    ensures var t := Next(s, a); SameStock(s, t) && OwnLess(s, t, a.h, true)
  {
    hide AfterSteal, AfterMark, TakenBelow, WokenUp;
    WokenSame(s.helpers[a.h]);
  }

  lemma DrainLess(s: State, a: Action)
    requires Allowed(s, a) && a == DrainCheck
    ensures var t := Next(s, a); SameStock(s, t) && OwnLess(s, t, MAIN, false)
  {
    hide AfterSteal, AfterMark, Woken;
  }

  // -----------------------------------------------------------------------------------
  // What it does to the others
  // -----------------------------------------------------------------------------------

  /** Whether the step may wake up helpers that sleep. */
  ghost predicate Wakes(s: State, a: Action)
    requires Allowed(s, a) && Actor(a) in Next(s, a).helpers
  {
    a.NotifyAll? || (Idles(s, a) && (a.RecheckTop? || Next(s, a).helpers[a.h].pc != Waiting(true)))
  }

  lemma OthersLeftAlone(s: State, a: Action, h: Id)
    requires Allowed(s, a) && h in s.helpers && h != Actor(a) && Actor(a) in Next(s, a).helpers && !Wakes(s, a)
    ensures h in Next(s, a).helpers && Next(s, a).helpers[h] == s.helpers[h]
  {
    if !MayWake(a) {
      OthersUntouched(s, a, h);
    } else if a.RecheckTop? {
      hide AfterSteal, AfterMark, Idle, ToGet;
    } else {
      DecidedToSleep(s, a);
    }
  }

  lemma DecidedToSleep(s: State, a: Action)
    requires Allowed(s, a) && a.Check? && a.h in Next(s, a).helpers && Next(s, a).helpers[a.h].pc == Waiting(true)
    ensures Next(s, a) == Set(s, a.h, Waiting(true))
  {
    hide AfterSteal, AfterMark, Woken;
  }

  lemma WokenLess(s: State, n: nat, first: nat, x: Helper)
    ensures var y := WokenUp(x);
      && Behind(n, y) == Behind(n, x) && Entries(y) == Entries(x) && Pointers(y) == Pointers(x) && y.pc.Out? == x.pc.Out?
      && Phase(n, first, y) == Phase(n, first, x)
  {
  }

  /** The phases of the others do not change. */
  lemma SamePhase(n: nat, first: nat, first': nat, x: Helper)
    requires first <= first' && Minus(n, first') == Minus(n, first)
    ensures Phase(n, first', x) == Phase(n, first, x)
  {
  }

  ghost predicate OtherSame(s: State, t: State, h: Id, mayWake: bool) {
    && h in s.helpers && h in t.helpers
    && var n, y, y' := |s.slots|, s.helpers[h], t.helpers[h];
    && Behind(n, y') == Behind(n, y) && Entries(y') == Entries(y) && Pointers(y') == Pointers(y)
    && (Minus(n, t.firstNonempty) == Minus(n, s.firstNonempty) ==>
          Phase(n, t.firstNonempty, y') == Phase(n, s.firstNonempty, y))
    && (!mayWake ==> y' == y)
  }

  lemma OtherStays(s: State, a: Action, h: Id)
    requires Allowed(s, a) && h in s.helpers && h != Actor(a) && Actor(a) in Next(s, a).helpers
    requires s.firstNonempty <= Next(s, a).firstNonempty
    ensures OtherSame(s, Next(s, a), h, Wakes(s, a))
  {
    hide Next, Allowed, Phase, Behind, Entries, Pointers, WokenUp;
    var t := Next(s, a);
    OthersStep(s, a, h);
    WokenLess(s, |s.slots|, t.firstNonempty, s.helpers[h]);
    if Minus(|s.slots|, t.firstNonempty) == Minus(|s.slots|, s.firstNonempty) {
      SamePhase(|s.slots|, s.firstNonempty, t.firstNonempty, s.helpers[h]);
    }
    if !Wakes(s, a) {
      OthersLeftAlone(s, a, h);
    }
  }

  // -----------------------------------------------------------------------------------
  // Every step leaves less work
  // -----------------------------------------------------------------------------------

  lemma RankDrops(helpers: nat, n: nat, first: nat, first': nat, me: Helper, me': Helper)
    requires Phase(n, first', me') < Phase(n, first, me)
    requires me'.pc != Waiting(false) && me'.pc != Draining(false)
    ensures Rank(helpers, n, first', me') + helpers < Rank(helpers, n, first, me)
  {
    hide Phase;
    var p, p' := Phase(n, first, me), Phase(n, first', me');
    assert (helpers + 1) * p == (helpers + 1) * p' + (helpers + 1) * (p - p');
    assert (helpers + 1) * (p - p') >= helpers + 1 by {
      assert (helpers + 1) * (p - p') == (helpers + 1) * (p - p' - 1) + (helpers + 1);
    }
  }

  /** With the stock unchanged, the measure of the acting helper decides. */
  lemma OwnLessIsLess(s: State, t: State, x: Id, mayWake: bool)
    requires SameStock(s, t) && OwnLess(s, t, x, mayWake) && t.helpers.Keys == s.helpers.Keys
    requires forall h :: h in s.helpers && h != x ==> OtherSame(s, t, h, mayWake)
    ensures LessStill(WorkLeft(t), WorkLeft(s))
  {
    hide Phase, Behind, Entries, Pointers, Minus, Unmarked, OutSet;
    var n, me, me' := |s.slots|, s.helpers[x], t.helpers[x];
    SumStep(Behinds(s), Behinds(t), x, false);
    if Behind(n, me') == Behind(n, me) {
      MinusFalls(n, s.firstNonempty, t.firstNonempty);
      assert Behinds(t) == Behinds(s) by { SameMaps(Behinds(s), Behinds(t), x); }
      if Minus(n, t.firstNonempty) == Minus(n, s.firstNonempty) {
        SumStep(AllEntries(s), AllEntries(t), x, false);
        if Entries(me') == Entries(me) {
          assert AllEntries(t) == AllEntries(s) by { SameMaps(AllEntries(s), AllEntries(t), x); }
          PhaseLessIsLess(s, t, x, mayWake);
        }
      }
    }
  }

  lemma MinusFalls(n: nat, a: nat, b: nat)
    requires a <= b
    ensures Minus(n, b) <= Minus(n, a)
  {
  }

  lemma SameMaps(m: map<Id, nat>, z: map<Id, nat>, x: Id)
    requires m.Keys == z.Keys && x in m && z[x] == m[x] && forall k :: k in m && k != x ==> z[k] == m[k]
    ensures z == m
  {
  }

  lemma PhaseLessIsLess(s: State, t: State, x: Id, mayWake: bool)
    requires t.helpers.Keys == s.helpers.Keys && x in s.helpers && |t.slots| == |s.slots|
    requires OwnPhaseLess(s, t, s.helpers[x], t.helpers[x], mayWake)
    requires Minus(|s.slots|, t.firstNonempty) == Minus(|s.slots|, s.firstNonempty)
    requires forall h :: h in s.helpers && h != x ==> OtherSame(s, t, h, mayWake)
    ensures || Sum(Ranks(t)) < Sum(Ranks(s))
            || (Sum(Ranks(t)) == Sum(Ranks(s)) && Sum(AllPointers(t)) < Sum(AllPointers(s)))
  {
    hide Phase, Pointers, Minus, Behind, Entries;
    var k, n, me, me' := |s.helpers|, |s.slots|, s.helpers[x], t.helpers[x];
    assert |t.helpers| == |s.helpers| by { assert t.helpers.Keys == s.helpers.Keys; }
    assert |Ranks(s)| == k by { assert Ranks(s).Keys == s.helpers.Keys; }
    forall h | h in s.helpers && h != x ensures Ranks(t)[h] <= Ranks(s)[h] + One(mayWake) {
      assert OtherSame(s, t, h, mayWake);
    }
    if Phase(n, t.firstNonempty, me') < Phase(n, s.firstNonempty, me) {
      RankDrops(k, n, s.firstNonempty, t.firstNonempty, me, me');
      hide Rank;
      SumStep(Ranks(s), Ranks(t), x, true);
    } else {
      SamePhaseIsLess(s, t, x);
    }
  }

  lemma SamePhaseIsLess(s: State, t: State, x: Id)
    requires t.helpers.Keys == s.helpers.Keys && x in s.helpers && |t.slots| == |s.slots| && |t.helpers| == |s.helpers|
    requires Minus(|s.slots|, t.firstNonempty) == Minus(|s.slots|, s.firstNonempty)
    requires OwnPhaseLess(s, t, s.helpers[x], t.helpers[x], false)
    requires Phase(|s.slots|, t.firstNonempty, t.helpers[x]) == Phase(|s.slots|, s.firstNonempty, s.helpers[x])
    requires forall h :: h in s.helpers && h != x ==> OtherSame(s, t, h, false)
    ensures || Sum(Ranks(t)) < Sum(Ranks(s))
            || (Sum(Ranks(t)) == Sum(Ranks(s)) && Sum(AllPointers(t)) < Sum(AllPointers(s)))
  {
    hide Phase, Pointers, Minus, Behind, Entries;
    forall h | h in s.helpers && h != x ensures Ranks(t)[h] == Ranks(s)[h] {
      assert OtherSame(s, t, h, false);
    }
    assert Ranks(t)[x] <= Ranks(s)[x];
    assert Ranks(t)[x] == Ranks(s)[x] ==> AllPointers(t)[x] < AllPointers(s)[x];
    hide Rank;
    SumStep(Ranks(s), Ranks(t), x, false);
    if Ranks(t)[x] == Ranks(s)[x] {
      SameMaps(Ranks(s), Ranks(t), x);
      SumStep(AllPointers(s), AllPointers(t), x, false);
    }
  }

  lemma NobodyComesOut(s: State, a: Action)
    requires Allowed(s, a) && Actor(a) in Next(s, a).helpers
    ensures s.helpers[Actor(a)].pc == Out <==> a.Join?
    ensures Next(s, a).helpers[Actor(a)].pc != Out
  {
    hide AfterSteal, AfterMark, Idle, Decided, Woken, ToGet, WokenUp;
    WokenSame(s.helpers[Actor(a)]);
    if Idles(s, a) {
      ActorResolves(s, a);
    }
  }

  lemma OutStep(s: State, a: Action)
    requires Allowed(s, a)
    ensures if a.Join? then |OutSet(Next(s, a))| < |OutSet(s)| else OutSet(Next(s, a)) == OutSet(s)
  {
    hide Next, Allowed;
    var t, x := Next(s, a), Actor(a);
    HelpersAreTheSame(s, a);
    NobodyComesOut(s, a);
    forall h | h in s.helpers && h != x ensures h in t.helpers && (t.helpers[h].pc == Out <==> s.helpers[h].pc == Out) {
      OthersStep(s, a, h);
      WokenSame(s.helpers[h]);
    }
    if a.Join? {
      assert OutSet(s) == OutSet(t) + {x} && x !in OutSet(t);
    }
  }

  /** An object marked for the first time is one less to mark. */
  lemma OneLessUnmarked(g: Graph, marked: set<Obj>, q: Obj)
    requires q in g && q !in marked
    ensures Unmarked(g, marked + {q}) < Unmarked(g, marked)
  {
    assert g.Keys - marked == (g.Keys - (marked + {q})) + {q};
  }

  lemma TargetsAreObjects(w: Heap, e: Entry)
    requires HeapOk(w)
    ensures forall q :: q in Targets(w, e) ==> q in w.fields
  {
  }

  lemma PointersLeadToObjects(s: State, start: set<Obj>, h: Id)
    requires MarksOk(s, start) && h in s.helpers && s.helpers[h].pc.Scanning? && s.helpers[h].pc.rest != []
    ensures s.helpers[h].pc.rest[0] in s.heap.fields
  {
    hide Targets;
    assert ScanOk(s, s.helpers[h]);
    TargetsAreObjects(s.heap, s.helpers[h].pc.e);
  }

  /** What a step does that neither marks anything nor shares anything. */
  lemma QuietStep(s: State, a: Action)
    requires IndicesOk(s) && Proceeds(s, a) && !a.Join?
    ensures var t := Next(s, a);
      || (a.MarkNext? && s.helpers[a.h].pc.Scanning? && s.helpers[a.h].pc.rest != [] && t.heap == s.heap
          && var q := s.helpers[a.h].pc.rest[0]; q !in s.marked && t.marked == s.marked + {q})
      || (t.marked == s.marked && t.heap == s.heap && Minus(t.capacity, |t.slots|) < Minus(s.capacity, |s.slots|))
      || (Actor(a) in t.helpers && SameStock(s, t) && OwnLess(s, t, Actor(a), Wakes(s, a)))
  {
    hide AfterSteal, AfterMark, AfterOther, OwnLess, IndicesOk;
    if Steals(a) {
      StealLess(s, a);
    } else if a.ReturnAll? || a.Share? {
      ShareLess(s, a);
    } else if a.MarkNext? {
      MarkNextLess(s, a);
    } else if Marks(a) {
      LocalLess(s, a);
    } else if Idles(s, a) {
      IdleLess(s, a);
    } else {
      match a {
        case ReadFirst(_) => ReadLess(s, a);
        case RaiseFirst(_) => RaiseLess(s, a);
        case LoadTop(_) => LoadLess(s, a);
        case RecheckTop(_) => RecheckLess(s, a);
        case NotifyAll(_) => NotifyLess(s, a);
        case DrainCheck => DrainLess(s, a);
        case _ =>
      }
    }
  }

  /** Every step but spurious wakeups and races leaves less work. */
  lemma EveryStepLeavesLess(s: State, a: Action, start: set<Obj>)
    requires Inv(s) && MarksOk(s, start) && Proceeds(s, a)
    ensures Less(WorkLeft(Next(s, a)), WorkLeft(s))
  {
    hide Next, Allowed, Unmarked, OwnLess, CountsOk, NoWorkLost, SleepersOk, InitiatorOk;
    var t := Next(s, a);
    HelpersAreTheSame(s, a);
    OutStep(s, a);
    if !a.Join? {
      QuietStep(s, a);
      if t.marked != s.marked {
        PointersLeadToObjects(s, start, a.h);
        OneLessUnmarked(s.heap.fields, s.marked, s.helpers[a.h].pc.rest[0]);
      } else if Minus(t.capacity, |t.slots|) >= Minus(s.capacity, |s.slots|) {
        SlotsStep(s, a);
        hide MarksOk, IndicesOk, Minus;
        forall h | h in s.helpers && h != Actor(a) ensures OtherSame(s, t, h, Wakes(s, a)) {
          OtherStays(s, a, h);
        }
        OwnLessIsLess(s, t, Actor(a), Wakes(s, a));
      }
    }
  }

  // -----------------------------------------------------------------------------------
  // The initiator returns
  // -----------------------------------------------------------------------------------

  predicate HasReturned(s: State) {
    MAIN in s.helpers && s.helpers[MAIN].pc == Finished
  }

  lemma SomebodyProceeds(s: State) returns (a: Action)
    requires Inv(s) && !HasReturned(s)
    ensures Proceeds(s, a) && !a.Join?
  {
    NobodyIsStuck(s);
    a :| !a.Wake? && !a.Join? && Allowed(s, a);
    if a.MarkNext? {
      a := MarkNext(a.h, false);
    }
  }

  /** The helpers take their steps, in any order, until the initiator has returned. */
  ghost predicate Runs(run: nat -> State, act: nat -> Action) {
    forall i: nat :: !HasReturned(run(i)) ==> Allowed(run(i), act(i)) && run(i + 1) == Next(run(i), act(i))
  }

  lemma {:induction false} UpTo(run: nat -> State, act: nat -> Action, items: seq<Entry>, m: nat) returns (n: nat)
    requires Initial(run(0), items) && Runs(run, act)
    ensures n <= m && Inv(run(n)) && MarksOk(run(n), run(0).marked)
    ensures n == m || HasReturned(run(n))
  {
    hide Inv, MarksOk, Next, Allowed, HasReturned, Initial;
    if m == 0 {
      InitialInv(run(0), items);
      n := 0;
    } else {
      n := UpTo(run, act, items, m - 1);
      if !HasReturned(run(n)) {
        assert Allowed(run(n), act(n)) && run(n + 1) == Next(run(n), act(n));
        StepKeepsInv(run(n), act(n));
        KeepsMarksOk(run(n), act(n), run(0).marked);
        n := n + 1;
      }
    }
  }

  lemma KeepsMarksOk(s: State, a: Action, start: set<Obj>)
    requires Inv(s) && MarksOk(s, start) && Allowed(s, a)
    ensures MarksOk(Next(s, a), start)
  {
    hide MarksOk, Next, Allowed;
    MarksStep(s, a, start);
  }

  /**
   `GC_do_parallel_mark` returns, whatever steps the helpers take in whatever order, if all but
   finitely many of the steps are neither spurious wakeups nor races.
   */
  lemma ParallelMarkingReturns(run: nat -> State, act: nat -> Action, items: seq<Entry>, m: nat) returns (n: nat)
    requires Initial(run(0), items) && Runs(run, act)
    requires forall i: nat :: i >= m ==> !act(i).Wake? && (act(i).MarkNext? ==> !act(i).raced)
    ensures HasReturned(run(n))
  {
    hide Inv, MarksOk, Next, HasReturned, Initial;
    n := UpTo(run, act, items, m);
    if !HasReturned(run(n)) {
      n := EveryRunEnds(run, act, n, run(0).marked);
    }
  }

  /** The same from any state that meets the invariants. */
  lemma {:induction false} EveryRunEnds(run: nat -> State, act: nat -> Action, m: nat, start: set<Obj>) returns (n: nat)
    requires Inv(run(m)) && MarksOk(run(m), start)
    requires forall i: nat :: i >= m && !HasReturned(run(i)) ==> Proceeds(run(i), act(i)) && run(i + 1) == Next(run(i), act(i))
    ensures n >= m && HasReturned(run(n))
    decreases WorkLeft(run(m)).out, WorkLeft(run(m)).unmarked, WorkLeft(run(m)).room, WorkLeft(run(m)).behind,
              WorkLeft(run(m)).lag, WorkLeft(run(m)).entries, WorkLeft(run(m)).ranks, WorkLeft(run(m)).pointers
  {
    hide Inv, MarksOk, Next, WorkLeft, HasReturned;
    if HasReturned(run(m)) {
      n := m;
    } else {
      assert Proceeds(run(m), act(m)) && run(m + 1) == Next(run(m), act(m));
      GoesOnWithLess(run(m), act(m), start);
      n := EveryRunEnds(run, act, m + 1, start);
    }
  }

  lemma GoesOnWithLess(s: State, a: Action, start: set<Obj>)
    requires Inv(s) && MarksOk(s, start) && Proceeds(s, a)
    ensures Inv(Next(s, a)) && MarksOk(Next(s, a), start) && Less(WorkLeft(Next(s, a)), WorkLeft(s))
  {
    hide Next, Allowed, MarksOk, WorkLeft;
    StepKeepsInv(s, a);
    MarksStep(s, a, start);
    EveryStepLeavesLess(s, a, start);
  }

  /** The steps from `n` on are neither joins nor spurious wakeups nor races. */
  ghost predicate Undisturbed(actions: seq<Action>, n: nat) {
    forall i :: n <= i < |actions| ==> !actions[i].Join? && !actions[i].Wake? && (actions[i].MarkNext? ==> !actions[i].raced)
  }

  ghost function AtEnd(states: seq<State>): Work
    requires states != []
  {
    WorkLeft(states[|states| - 1])
  }

  /** From any reachable state the helpers that have joined can bring marking to its end by themselves. */
  lemma {:induction false} MarkingCanEnd(items: seq<Entry>, states: seq<State>, actions: seq<Action>, n: nat)
      returns (more: seq<State>, done: seq<Action>)
    requires IsRun(items, states, actions) && n <= |actions| && Undisturbed(actions, n)
    ensures IsRun(items, more, done) && states <= more && actions <= done && Undisturbed(done, n)
    ensures HasReturned(more[|more| - 1])
    decreases AtEnd(states).out, AtEnd(states).unmarked, AtEnd(states).room, AtEnd(states).behind,
              AtEnd(states).lag, AtEnd(states).entries, AtEnd(states).ranks, AtEnd(states).pointers
  {
    hide Inv, MarksOk, Next, WorkLeft, HasReturned, Initial;
    var s := states[|actions|];
    RunKeepsInv(items, states, actions, |actions|);
    if HasReturned(s) {
      more, done := states, actions;
    } else {
      var a := SomebodyProceeds(s);
      GoesOnWithLess(s, a, states[0].marked);
      hide Allowed;
      more, done := MarkingCanEnd(items, states + [Next(s, a)], actions + [a], n);
    }
  }
}
