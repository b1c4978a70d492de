/**
 The work-stealing marker: any number of helpers take entries from the shared mark stack,
 mark from private stacks, hand work back, go idle, and together detect that all is done.
 Every action below is one access to shared memory, or one section under the mark lock.
 */
module ParallelMark {
  import opened ObjectGraph
  import opened MarkPhase

  type Id = nat

  const MAIN: Id := 0
  const ENTRIES_TO_GET: nat := 5
  const LOCAL_MARK_STACK_SIZE: nat := 4096

  /** What is marked through: it does not change while the helpers are at work. */
  datatype Heap = Heap(hdrs: map<nat, Hdr>, fields: Graph, segs: seq<seq<Obj>>)

  /** An entry of the shared mark stack; taking it replaces its descriptor by 0. */
  datatype Slot = Slot(item: Entry, taken: bool)

  datatype Pc =
    | Out                                                                // has not joined in this cycle
    | Gone                                                               // has left, and waits for the next cycle
    | Sync                                                               // about to read the shared first index
    | Cas(seen: nat)                                                     // about to raise the shared first index
    | ReadTop                                                            // about to read the top of the shared stack
    | Lock                                                               // found it empty, about to take the lock
    | Waiting(asleep: bool)                                              // idle; woken up, it needs the lock again
    | Stealing(p: nat, high: nat, got: nat, max: nat)                    // about to read entry p
    | Taking(p: nat, high: nat, got: nat, max: nat, item: Entry)         // has read entry p, about to clear it
    | Local                                                              // marking from the local stack
    | Scanning(e: Entry, rest: seq<Obj>)                                 // about to look at these pointers of an entry
    | Notify                                                             // has handed work back, about to say so
    | Draining(asleep: bool)                                             // the initiator, waiting for helpers
    | Finished                                                           // the initiator has returned

  datatype Helper = Helper(pc: Pc, first: nat, local: seq<Entry>)

  datatype State = State(
    heap: Heap,
    marked: set<Obj>,
    slots: seq<Slot>,
    capacity: nat,
    firstNonempty: nat,
    invalid: bool,
    helpWanted: bool,
    helperCount: nat,
    activeCount: nat,
    helpers: map<Id, Helper>,
    processed: set<Entry>,
    issued: set<Entry>)

  datatype Action =
    | Join(h: Id)
    | ReadFirst(h: Id)
    | RaiseFirst(h: Id)
    | LoadTop(h: Id)
    | RecheckTop(h: Id)
    | Wake(h: Id)
    | Check(h: Id)
    | StealRead(h: Id)
    | StealClear(h: Id, size: nat)
    | Pop(h: Id)
    | MarkNext(h: Id, raced: bool)
    | ScanDone(h: Id)
    | ReturnAll(h: Id)
    | Share(h: Id)
    | LocalDone(h: Id)
    | NotifyAll(h: Id)
    | DrainCheck

  /** The pointers that an entry leads to. */
  function Targets(w: Heap, e: Entry): seq<Obj> {
    if EntryOk(w.fields, w.segs, e) then Contents(w.fields, w.segs, e) else []
  }

  predicate InLoop(pc: Pc) {
    !pc.Out? && !pc.Gone? && !pc.Draining? && !pc.Finished?
  }

  predicate IsActive(pc: Pc) {
    InLoop(pc) && !pc.Waiting?
  }

  function WokenUp(x: Helper): Helper {
    match x.pc
    case Waiting(_) => x.(pc := Waiting(false))
    case Draining(_) => x.(pc := Draining(false))
    case _ => x
  }

  /** `GC_notify_all_marker`: whoever sleeps on the condition variable wakes up. */
  function Woken(helpers: map<Id, Helper>): (r: map<Id, Helper>)
    ensures r.Keys == helpers.Keys
  {
    map h | h in helpers :: WokenUp(helpers[h])
  }

  /** The same marks and stacks, and the same helpers with the same private stacks. */
  ghost predicate SameWork(s: State, t: State) {
    && t == s.(helpers := t.helpers, helperCount := t.helperCount, activeCount := t.activeCount, helpWanted := t.helpWanted)
    && t.helpers.Keys == s.helpers.Keys
    && (forall h :: h in s.helpers ==> t.helpers[h].local == s.helpers[h].local && t.helpers[h].first == s.helpers[h].first)
  }

  function Set(s: State, h: Id, pc: Pc): (r: State)
    requires h in s.helpers
    ensures r.helpers.Keys == s.helpers.Keys
  {
    s.(helpers := s.helpers[h := s.helpers[h].(pc := pc)])
  }

  /** How many entries to take at once: few if few are left. */
  function ToGet(onStack: nat): nat {
    if onStack < 2 * ENTRIES_TO_GET then 1 else ENTRIES_TO_GET
  }

  /** `GC_return_mark_stack` under the lock: append, or drop everything if there is no room. */
  function Returned(s: State, items: seq<Entry>): (r: State)
    ensures r == s.(slots := r.slots, invalid := r.invalid)
  {
    if |s.slots| + |items| > s.capacity then s.(invalid := true)
    else s.(slots := s.slots + seq(|items|, i requires 0 <= i < |items| => Slot(items[i], false)))
  }

  /**
   A helper that holds the lock has found that all is done: the last one to leave wakes the initiator.
   Helpers other than the initiator count the cycles: one that has left joins only in the next.
   */
  function Left(s: State, h: Id): (r: State)
    requires h in s.helpers
    ensures SameWork(s, r)
  {
    var left := if s.helperCount == 0 then 0 else s.helperCount - 1;
    var t := if left == 0 then s.(helpers := Woken(s.helpers)) else s;
    if h == MAIN then Set(t, h, if left > 0 then Draining(true) else Finished).(helperCount := left, helpWanted := false)
    else Set(t, h, Gone).(helperCount := left)
  }

  /** An idle helper with the lock sleeps, leaves, or goes back to work. */
  function Decided(s: State, h: Id): (r: State)
    requires h in s.helpers
    ensures SameWork(s, r)
  {
    if s.firstNonempty < |s.slots| then Set(s, h, Sync).(activeCount := s.activeCount + 1)
    else if s.activeCount > 0 then Set(s, h, Waiting(true))
    else Left(s, h)
  }

  /** The shared stack is empty, as the helper now knows for sure: it is active no longer. */
  function Idle(s: State, h: Id): (r: State)
    requires h in s.helpers
    ensures SameWork(s, r)
  {
    var t := s.(activeCount := if s.activeCount == 0 then 0 else s.activeCount - 1);
    Decided(if t.activeCount == 0 then t.(helpers := Woken(t.helpers)) else t, h)
  }

  /** An object that has just been marked goes on the private stack; an overflow discards the topmost entries. */
  function PushedLocally(s: State, h: Id, q: Obj): (r: State)
    requires h in s.helpers
    ensures r == s.(invalid := r.invalid, issued := r.issued, helpers := r.helpers)
    ensures r.helpers.Keys == s.helpers.Keys
    ensures r.helpers == s.helpers[h := s.helpers[h].(local := r.helpers[h].local)]
  {
    var me := s.helpers[h];
    if q.blk !in s.heap.hdrs || !s.heap.hdrs[q.blk].HasDescr() then s
    else if |me.local| < LOCAL_MARK_STACK_SIZE then
      s.(helpers := s.helpers[h := me.(local := me.local + [ObjRange(q)])], issued := s.issued + {ObjRange(q)})
    else
      var kept := me.local[..|me.local| - MARK_STACK_DISCARDS];
      s.(helpers := s.helpers[h := me.(local := kept + [ObjRange(q)])], issued := s.issued + {ObjRange(q)},
         invalid := true)
  }

  ghost predicate Allowed(s: State, a: Action) {
    match a
    case Join(h) => h in s.helpers && h != MAIN && s.helpers[h].pc == Out && s.helpWanted
    case ReadFirst(h) => h in s.helpers && s.helpers[h].pc == Sync
    case RaiseFirst(h) => h in s.helpers && s.helpers[h].pc.Cas?
    case LoadTop(h) => h in s.helpers && s.helpers[h].pc == ReadTop
    case RecheckTop(h) => h in s.helpers && s.helpers[h].pc == Lock
    case Wake(h) => h in s.helpers && (s.helpers[h].pc.Waiting? || s.helpers[h].pc.Draining?)
    case Check(h) => h in s.helpers && s.helpers[h].pc == Waiting(false)
    case StealRead(h) => h in s.helpers && s.helpers[h].pc.Stealing?
    case StealClear(h, _) => h in s.helpers && s.helpers[h].pc.Taking?
    case Pop(h) => h in s.helpers && s.helpers[h].pc == Local && s.helpers[h].local != []
    case MarkNext(h, _) => h in s.helpers && s.helpers[h].pc.Scanning? && s.helpers[h].pc.rest != []
    case ScanDone(h) => h in s.helpers && s.helpers[h].pc.Scanning? && s.helpers[h].pc.rest == []
    case ReturnAll(h) => h in s.helpers && s.helpers[h].pc == Local && |s.helpers[h].local| > LOCAL_MARK_STACK_SIZE / 2
    case Share(h) => h in s.helpers && s.helpers[h].pc == Local && 3 <= |s.helpers[h].local|
    case LocalDone(h) => h in s.helpers && s.helpers[h].pc == Local && s.helpers[h].local == []
    case NotifyAll(h) => h in s.helpers && s.helpers[h].pc == Notify
    case DrainCheck => MAIN in s.helpers && s.helpers[MAIN].pc == Draining(false)
  }

  /** `GC_steal_mark_stack`. */
  predicate Steals(a: Action) {
    a.StealRead? || a.StealClear?
  }

  /** What concerns the private stack: `GC_do_local_mark`. */
  predicate Marks(a: Action) {
    a.Pop? || a.MarkNext? || a.ScanDone? || a.ReturnAll? || a.Share? || a.LocalDone?
  }

  /** Nothing of the coordination of the helpers has changed, and of the helpers only `h`. */
  ghost predicate OnlyHelper(s: State, t: State, h: Id) {
    && h in s.helpers && h in t.helpers && t.helpers == s.helpers[h := t.helpers[h]] && t.heap == s.heap
    && t.firstNonempty == s.firstNonempty && t.helpWanted == s.helpWanted
    && t.helperCount == s.helperCount && t.activeCount == s.activeCount
  }

  ghost function AfterSteal(s: State, a: Action): (t: State)
    requires Allowed(s, a) && Steals(a)
    ensures OnlyHelper(s, t, a.h) && |t.slots| == |s.slots| && t.issued == s.issued && t.processed == s.processed
    ensures t.marked == s.marked && t.invalid == s.invalid
    ensures var pc := t.helpers[a.h].pc; pc.Stealing? || pc.Taking? || pc.Local?
    ensures var pc := s.helpers[a.h].pc; pc.Stealing? || pc.Taking?
  {
    match a
    case StealRead(h) =>
      var Stealing(p, high, got, max) := s.helpers[h].pc;
      if p < high && p < |s.slots| && got <= max then
        if s.slots[p].taken then Set(s, h, Stealing(p + 1, high, got, max))
        else Set(s, h, Taking(p, high, got, max, s.slots[p].item))
      else s.(helpers := s.helpers[h := s.helpers[h].(pc := Local, first := p)])
    case StealClear(h, size) =>
      var Taking(p, high, got, max, item) := s.helpers[h].pc;
      var me := s.helpers[h].(pc := Stealing(p + 1, high, got + 1 + size, max), local := s.helpers[h].local + [item]);
      s.(helpers := s.helpers[h := me],
         slots := if p < |s.slots| then s.slots[p := s.slots[p].(taken := true)] else s.slots)
  }

  /**
   A mark bit may be set between another helper's test of it and its own setting of it: then
   both push the object. In this race `MarkNext` pushes an object that is marked already.
   */
  ghost function AfterMark(s: State, a: Action): (t: State)
    requires Allowed(s, a) && Marks(a)
    ensures OnlyHelper(s, t, a.h) && s.slots <= t.slots && s.marked <= t.marked
    ensures s.issued <= t.issued && s.processed <= t.processed && (s.invalid ==> t.invalid)
    ensures var pc := t.helpers[a.h].pc; pc.Scanning? || pc.Local? || pc.Sync? || pc.Notify?
    ensures t.slots != s.slots ==> t.helpers[a.h].pc.Notify?
    ensures var pc := s.helpers[a.h].pc; pc.Scanning? || pc.Local?
  {
    match a
    case Pop(h) =>
      var me := s.helpers[h];
      var top := |me.local| - 1;
      s.(helpers := s.helpers[h := me.(pc := Scanning(me.local[top], Targets(s.heap, me.local[top])), local := me.local[..top])])
    case MarkNext(h, raced) =>
      var Scanning(e, rest) := s.helpers[h].pc;
      var t := Set(s, h, Scanning(e, rest[1..]));
      if rest[0] in s.marked && !raced then t
      else PushedLocally(t.(marked := s.marked + {rest[0]}), h, rest[0])
    case ScanDone(h) =>
      Set(s, h, Local).(processed := s.processed + {s.helpers[h].pc.e})
    case ReturnAll(h) =>
      var t := Returned(s, s.helpers[h].local);
      t.(helpers := s.helpers[h := s.helpers[h].(pc := Notify, local := [])])
    case Share(h) =>
      var me := s.helpers[h];
      var bottom := (|me.local| - 1) / 2;
      var t := Returned(s, me.local[..bottom]);
      t.(helpers := s.helpers[h := me.(pc := Notify, local := me.local[bottom..])])
    case LocalDone(h) => Set(s, h, Sync)
  }

  /** What concerns the shared indices and counts. */
  ghost function AfterOther(s: State, a: Action): (t: State)
    requires Allowed(s, a) && !Steals(a) && !Marks(a)
    ensures t.heap == s.heap && t.slots == s.slots && t.marked == s.marked && t.issued == s.issued
    ensures t.processed == s.processed && t.invalid == s.invalid && t.helpers.Keys == s.helpers.Keys
  {
    match a
    case Join(h) =>
      s.(helperCount := s.helperCount + 1, activeCount := s.activeCount + 1,
         helpers := s.helpers[h := Helper(Sync, s.firstNonempty, [])])
    case ReadFirst(h) =>
      var me := s.helpers[h];
      if me.first < s.firstNonempty then
        s.(helpers := s.helpers[h := me.(pc := ReadTop, first := s.firstNonempty)])
      else if s.firstNonempty < me.first then Set(s, h, Cas(s.firstNonempty))
      else Set(s, h, ReadTop)
    case RaiseFirst(h) =>
      var t := Set(s, h, ReadTop);
      if s.firstNonempty == s.helpers[h].pc.seen then t.(firstNonempty := s.helpers[h].first) else t
    case LoadTop(h) =>
      var first := s.helpers[h].first;
      if |s.slots| <= first then Set(s, h, Lock)
      else Set(s, h, Stealing(first, |s.slots|, 0, ToGet(|s.slots| - first)))
    case RecheckTop(h) =>
      var first := s.helpers[h].first;
      if |s.slots| > first then Set(s, h, Stealing(first, |s.slots|, 0, ToGet(|s.slots| - first)))
      else Idle(s, h)
    case Wake(h) =>
      Set(s, h, if s.helpers[h].pc.Waiting? then Waiting(false) else Draining(false))
    case Check(h) => Decided(s, h)
    case NotifyAll(h) =>
      var t := s.(helpers := Woken(s.helpers));
      Set(t, h, if s.helpers[h].local == [] then Sync else Local)
    case DrainCheck =>
      Set(s, MAIN, if s.helperCount > 0 then Draining(true) else Finished)
  }

  ghost function Next(s: State, a: Action): State
    requires Allowed(s, a)
  {
    if Steals(a) then AfterSteal(s, a)
    else if Marks(a) then AfterMark(s, a)
    else AfterOther(s, a)
  }

  /** The state in which `GC_do_parallel_mark` releases the lock for the first time. */
  ghost predicate Initial(s: State, items: seq<Entry>) {
    && MAIN in s.helpers && HeapOk(s.heap)
    && (forall e :: e in items ==> EntryOk(s.heap.fields, s.heap.segs, e))
    && s.slots == seq(|items|, i requires 0 <= i < |items| => Slot(items[i], false))
    && |items| <= s.capacity
    && s.firstNonempty == 0 && s.helpWanted && s.helperCount == 1 && s.activeCount == 1
    && (forall h :: h in s.helpers ==> s.helpers[h] == Helper(if h == MAIN then Sync else Out, 0, []))
    && s.processed == {} && s.issued == set i | i in items
  }

  /** Blocks with a zero mark descriptor hold no pointers. */
  ghost predicate HeapOk(w: Heap) {
    PointersOk(w.hdrs, w.fields, w.segs, [])
  }

  // -----------------------------------------------------------------------------------
  // The invariant
  // -----------------------------------------------------------------------------------

  ghost predicate TakenBelow(s: State, n: nat) {
    n <= |s.slots| && forall k :: 0 <= k < n ==> s.slots[k].taken
  }

  /** The indices a helper keeps, shared or private, have nothing left to take below them. */
  ghost predicate HelperOk(s: State, x: Helper) {
    && TakenBelow(s, x.first)
    && (x.pc.Cas? ==> x.pc.seen < x.first)
    && (x.pc.Stealing? ==> x.pc.p <= x.pc.high <= |s.slots| && TakenBelow(s, x.pc.p))
    && (x.pc.Taking? ==> x.pc.p < x.pc.high <= |s.slots| && TakenBelow(s, x.pc.p) && s.slots[x.pc.p].item == x.pc.item)
    && (x.local != [] ==> x.pc.Stealing? || x.pc.Taking? || x.pc.Local? || x.pc.Scanning? || x.pc.Notify?)
  }

  ghost predicate IndicesOk(s: State) {
    TakenBelow(s, s.firstNonempty) && forall h :: h in s.helpers ==> HelperOk(s, s.helpers[h])
  }

  ghost function InLoopSet(s: State): set<Id> {
    set h | h in s.helpers && InLoop(s.helpers[h].pc)
  }

  ghost function ActiveSet(s: State): set<Id> {
    set h | h in s.helpers && IsActive(s.helpers[h].pc)
  }

  ghost predicate CountsOk(s: State) {
    s.helperCount == |InLoopSet(s)| && s.activeCount == |ActiveSet(s)|
  }

  /** The helper has entry `i` on its stack, or is scanning it. */
  predicate Holds(x: Helper, i: Entry) {
    i in x.local || (x.pc.Scanning? && x.pc.e == i)
  }

  /** Entry `i` waits in the shared stack, or is in the hands of some helper. */
  ghost predicate Pending(s: State, i: Entry) {
    || (exists k :: 0 <= k < |s.slots| && !s.slots[k].taken && s.slots[k].item == i)
    || (exists h :: h in s.helpers && Holds(s.helpers[h], i))
  }

  ghost predicate NoWorkLost(s: State) {
    s.invalid || forall i :: i in s.issued ==> i in s.processed || Pending(s, i)
  }

  /** Nobody sleeps through the event waited for: a notification is on its way. */
  ghost predicate SleepersOk(s: State) {
    && (forall h :: h in s.helpers && s.helpers[h].pc == Waiting(true) ==>
          (s.activeCount > 0 && s.firstNonempty >= |s.slots|) || exists n :: n in s.helpers && s.helpers[n].pc == Notify)
    && (MAIN in s.helpers && s.helpers[MAIN].pc == Draining(true) ==> s.helperCount > 0)
  }

  ghost predicate InitiatorOk(s: State) {
    && MAIN in s.helpers && !s.helpers[MAIN].pc.Out? && !s.helpers[MAIN].pc.Gone?
    && (forall h :: h in s.helpers && h != MAIN ==> !s.helpers[h].pc.Draining? && !s.helpers[h].pc.Finished?)
    && (s.helpWanted <==> InLoop(s.helpers[MAIN].pc))
    && (!s.helpWanted ==> s.activeCount == 0)
    && (s.activeCount == 0 ==> s.firstNonempty >= |s.slots|)
    && (s.helpers[MAIN].pc == Finished ==> s.helperCount == 0)
  }

  /** What a helper has already looked at in the entry it scans is marked. */
  ghost predicate ScanOk(s: State, x: Helper) {
    && (forall i :: i in x.local ==> i in s.issued)
    && (x.pc.Scanning? ==>
          x.pc.e in s.issued
          && (forall q :: q in x.pc.rest ==> q in Targets(s.heap, x.pc.e))
          && (forall q :: q in Targets(s.heap, x.pc.e) ==> q in s.marked || q in x.pc.rest))
  }

  /** The marks are all looked after: what has been marked has been put on some stack. */
  ghost predicate MarksOk(s: State, start: set<Obj>) {
    && HeapOk(s.heap) && start <= s.marked
    && (forall k :: 0 <= k < |s.slots| ==> s.slots[k].item in s.issued)
    && (forall h :: h in s.helpers ==> ScanOk(s, s.helpers[h]))
    && (forall i, q :: i in s.processed && q in Targets(s.heap, i) ==> q in s.marked)
    && (forall o :: o in s.marked && o !in start && Targets(s.heap, ObjRange(o)) != [] ==> ObjRange(o) in s.issued)
  }

  /** All marks, and all that is still to be marked, can be reached from `from`. */
  ghost predicate MarksJustified(s: State, from: set<Obj>) {
    && (forall o :: o in s.marked ==> Reaches(s.heap.fields, from, o))
    && (forall i, q :: i in s.issued && q in Targets(s.heap, i) ==> Reaches(s.heap.fields, from, q))
  }

  ghost predicate Inv(s: State) {
    IndicesOk(s) && CountsOk(s) && NoWorkLost(s) && SleepersOk(s) && InitiatorOk(s)
  }

  lemma InitialInv(s: State, items: seq<Entry>)
    requires Initial(s, items)
    ensures Inv(s) && MarksOk(s, s.marked)
  {
    assert InLoopSet(s) == {MAIN} && ActiveSet(s) == {MAIN};
    forall i | i in s.issued
      ensures Pending(s, i)
    {
      var k :| 0 <= k < |items| && items[k] == i;
      assert s.slots[k].item == i && !s.slots[k].taken;
    }
  }

  // Indices -----------------------------------------------------------------------------

  lemma TakenStays(s: State, t: State, n: nat)
    requires TakenBelow(s, n) && |s.slots| <= |t.slots|
    requires forall k :: 0 <= k < |s.slots| ==> s.slots[k].taken ==> t.slots[k].taken
    ensures TakenBelow(t, n)
  {
  }

  function One(b: bool): nat { if b then 1 else 0 }

  /** What can come of an idle helper `h` that has the lock. */
  ghost predicate Resolved(s: State, t: State, h: Id) {
    h in t.helpers &&
    var pc := t.helpers[h].pc;
    && (pc == Sync || pc == Waiting(true) || if h == MAIN then pc == Draining(true) || pc == Finished else pc == Gone)
    && (if InLoop(pc) then t.helperCount == s.helperCount && t.helpWanted == s.helpWanted
        else t.helperCount == s.helperCount - One(s.helperCount > 0) && t.helpWanted == (s.helpWanted && h != MAIN)
             && t.activeCount == 0)
    && (pc == Waiting(true) ==> t.activeCount > 0)
    && (pc == Sync ==> t.activeCount > 0)
    && (pc == Sync <==> s.firstNonempty < |s.slots|) && t.firstNonempty == s.firstNonempty && t.slots == s.slots
    && (pc == Draining(true) ==> t.helperCount > 0)
    && (pc == Finished ==> t.helperCount == 0)
  }

  lemma DecidedResolves(s: State, h: Id)
    requires h in s.helpers
    ensures var t := Decided(s, h);
      Resolved(s, t, h) && t.activeCount == s.activeCount + One(t.helpers[h].pc == Sync)
  {
    hide Woken;
  }

  lemma IdleResolves(s: State, h: Id)
    requires h in s.helpers
    ensures var t := Idle(s, h);
      Resolved(s, t, h) && (s.activeCount > 0 ==> t.activeCount + 1 == s.activeCount + One(t.helpers[h].pc == Sync))
  {
    hide Woken, Decided;
    var t := s.(activeCount := if s.activeCount == 0 then 0 else s.activeCount - 1);
    DecidedResolves(if t.activeCount == 0 then t.(helpers := Woken(t.helpers)) else t, h);
  }

  /** In this step the acting helper has the lock and nothing to do. */
  ghost predicate Idles(s: State, a: Action)
    requires Allowed(s, a)
  {
    a.Check? || (a.RecheckTop? && |s.slots| <= s.helpers[a.h].first)
  }

  /** What comes of the acting helper when it is idle. */
  lemma ActorResolves(s: State, a: Action)
    requires Allowed(s, a) && Idles(s, a)
    ensures Resolved(s, Next(s, a), a.h)
    ensures a.Check? || s.activeCount > 0 ==>
              Next(s, a).activeCount + One(a.RecheckTop?) == s.activeCount + One(Next(s, a).helpers[a.h].pc == Sync)
  {
    hide AfterSteal, AfterMark, Decided, Idle, Resolved;
    if a.RecheckTop? {
      IdleResolves(s, a.h);
    } else {
      DecidedResolves(s, a.h);
    }
  }

  function Actor(a: Action): Id {
    match a
    case DrainCheck => MAIN
    case _ => a.h
  }

  lemma SlotsStep(s: State, a: Action)
    requires IndicesOk(s) && Allowed(s, a)
    ensures |s.slots| <= |Next(s, a).slots|
    ensures forall k :: 0 <= k < |s.slots| ==>
              s.slots[k].item == Next(s, a).slots[k].item && (s.slots[k].taken ==> Next(s, a).slots[k].taken)
    ensures s.firstNonempty <= Next(s, a).firstNonempty && TakenBelow(Next(s, a), Next(s, a).firstNonempty)
  {
    hide Woken;
    assert HelperOk(s, s.helpers[Actor(a)]);
  }

  /** Steps that may notify those that sleep. */
  predicate MayWake(a: Action) {
    a.RecheckTop? || a.Check? || a.NotifyAll?
  }

  /** What a helper that decides to leave, sleep or go on does to another one: it may wake it. */
  lemma OthersAtDecision(s: State, h: Id, x: Id)
    requires h in s.helpers && x in s.helpers && x != h
    ensures var t := Decided(s, h);
      && (t.helpers[x] == s.helpers[x] || t.helpers[x] == WokenUp(s.helpers[x]))
      && (s.helperCount > 0 && t.helperCount == 0 ==> t.helpers[x] == WokenUp(s.helpers[x]))
      && (t.activeCount == 0 ==> s.activeCount == 0)
  {
  }

  lemma OthersAtIdle(s: State, h: Id, x: Id)
    requires h in s.helpers && x in s.helpers && x != h
    ensures var t := Idle(s, h);
      && (t.helpers[x] == s.helpers[x] || t.helpers[x] == WokenUp(s.helpers[x]))
      && ((s.helperCount > 0 && t.helperCount == 0) || (s.activeCount > 0 && t.activeCount == 0) ==>
            t.helpers[x] == WokenUp(s.helpers[x]))
  {
    hide Decided;
    var t := s.(activeCount := if s.activeCount == 0 then 0 else s.activeCount - 1);
    OthersAtDecision(if t.activeCount == 0 then t.(helpers := Woken(t.helpers)) else t, h, x);
  }

  lemma OthersWoken(s: State, a: Action, h: Id)
    requires Allowed(s, a) && h in s.helpers && h != Actor(a) && MayWake(a)
    ensures h in Next(s, a).helpers
    ensures Next(s, a).helpers[h] == s.helpers[h] || Next(s, a).helpers[h] == WokenUp(s.helpers[h])
    ensures || a.NotifyAll?
            || (s.activeCount > 0 && Next(s, a).activeCount == 0)
            || (s.helperCount > 0 && Next(s, a).helperCount == 0)
            ==> Next(s, a).helpers[h] == WokenUp(s.helpers[h])
  {
    hide AfterSteal, AfterMark, Decided, Idle, WokenUp, ToGet;
    if a.RecheckTop? {
      OthersAtIdle(s, a.h, h);
    } else if a.Check? {
      OthersAtDecision(s, a.h, h);
    }
  }

  lemma OthersUntouched(s: State, a: Action, h: Id)
    requires Allowed(s, a) && h in s.helpers && h != Actor(a) && !MayWake(a)
    ensures h in Next(s, a).helpers && Next(s, a).helpers[h] == s.helpers[h]
  {
    hide Returned, Woken;
  }

  /** A step of one helper leaves the others as they are, except that it may wake them. */
  lemma OthersStep(s: State, a: Action, h: Id)
    requires Allowed(s, a) && h in s.helpers && h != Actor(a)
    ensures h in Next(s, a).helpers
    ensures Next(s, a).helpers[h] == s.helpers[h] || Next(s, a).helpers[h] == WokenUp(s.helpers[h])
  {
    hide Next, Woken, Allowed;
    if MayWake(a) {
      OthersWoken(s, a, h);
    } else {
      OthersUntouched(s, a, h);
    }
  }

  lemma WokenSame(x: Helper)
    ensures var w := WokenUp(x);
      && w.first == x.first && w.local == x.local
      && (w.pc == x.pc || (x.pc.Waiting? && w.pc == Waiting(false)) || (x.pc.Draining? && w.pc == Draining(false)))
      && w.pc != Waiting(true) && w.pc != Draining(true)
  {
  }

  lemma StealStep(s: State, a: Action)
    requires IndicesOk(s) && Allowed(s, a) && (a.StealRead? || a.StealClear?)
    ensures Actor(a) in s.helpers && Actor(a) in Next(s, a).helpers
    ensures HelperOk(Next(s, a), Next(s, a).helpers[Actor(a)])
  {
    hide Woken, Returned, AfterMark, AfterOther, ToGet, Targets;
    SlotsStep(s, a);
    TakenStays(s, Next(s, a), s.helpers[Actor(a)].first);
    assert HelperOk(s, s.helpers[Actor(a)]);
  }

  lemma TopStep(s: State, a: Action)
    requires IndicesOk(s) && Allowed(s, a) && (a.LoadTop? || a.RecheckTop?)
    ensures Actor(a) in s.helpers && Actor(a) in Next(s, a).helpers
    ensures HelperOk(Next(s, a), Next(s, a).helpers[Actor(a)])
  {
    hide AfterSteal, AfterMark, Idle, Decided, ToGet, Woken, Targets;
    SlotsStep(s, a);
    if Idles(s, a) {
      ActorResolves(s, a);
    }
    TakenStays(s, Next(s, a), s.helpers[Actor(a)].first);
    assert HelperOk(s, s.helpers[Actor(a)]);
  }

  lemma LocalSelfStep(s: State, a: Action)
    requires IndicesOk(s) && Allowed(s, a) && Marks(a)
    ensures Actor(a) in s.helpers && Actor(a) in Next(s, a).helpers
    ensures HelperOk(Next(s, a), Next(s, a).helpers[Actor(a)])
  {
    hide Returned, ToGet, Woken;
    SlotsStep(s, a);
    TakenStays(s, Next(s, a), s.helpers[Actor(a)].first);
    assert HelperOk(s, s.helpers[Actor(a)]);
  }

  lemma IndexSelfStep(s: State, a: Action)
    requires IndicesOk(s) && Allowed(s, a) && (a.Join? || a.ReadFirst? || a.RaiseFirst?)
    ensures Actor(a) in s.helpers && Actor(a) in Next(s, a).helpers
    ensures HelperOk(Next(s, a), Next(s, a).helpers[Actor(a)])
  {
    hide Returned, ToGet, Woken;
    SlotsStep(s, a);
    TakenStays(s, Next(s, a), s.helpers[Actor(a)].first);
    assert HelperOk(s, s.helpers[Actor(a)]);
  }

  lemma IdleSelfStep(s: State, a: Action)
    requires IndicesOk(s) && Allowed(s, a) && (a.Wake? || a.Check? || a.NotifyAll? || a.DrainCheck?)
    ensures Actor(a) in s.helpers && Actor(a) in Next(s, a).helpers
    ensures HelperOk(Next(s, a), Next(s, a).helpers[Actor(a)])
  {
    hide WokenUp, AfterSteal, AfterMark, ToGet, TakenBelow;
    WokenSame(s.helpers[Actor(a)]);
    SlotsStep(s, a);
    assert HelperOk(s, s.helpers[Actor(a)]);
    assert TakenBelow(s, s.helpers[Actor(a)].first);
    TakenStays(s, Next(s, a), s.helpers[Actor(a)].first);
  }

  lemma ActorStep(s: State, a: Action)
    requires IndicesOk(s) && Allowed(s, a)
    ensures Actor(a) in s.helpers && Actor(a) in Next(s, a).helpers
    ensures HelperOk(Next(s, a), Next(s, a).helpers[Actor(a)])
  {
    hide Next, Allowed, IndicesOk, HelperOk;
    if a.StealRead? || a.StealClear? {
      StealStep(s, a);
    } else if a.LoadTop? || a.RecheckTop? {
      TopStep(s, a);
    } else if Marks(a) {
      LocalSelfStep(s, a);
    } else if a.Join? || a.ReadFirst? || a.RaiseFirst? {
      IndexSelfStep(s, a);
    } else {
      IdleSelfStep(s, a);
    }
  }

  lemma HelpersAreTheSame(s: State, a: Action)
    requires Allowed(s, a)
    ensures Next(s, a).helpers.Keys == s.helpers.Keys && Actor(a) in s.helpers
  {
    hide AfterSteal, AfterMark, AfterOther;
  }

  lemma IndicesStep(s: State, a: Action)
    requires IndicesOk(s) && Allowed(s, a)
    ensures IndicesOk(Next(s, a))
  {
    hide Next, Woken, Allowed;
    var t := Next(s, a);
    SlotsStep(s, a);
    ActorStep(s, a);
    HelpersAreTheSame(s, a);
    forall h | h in t.helpers
      ensures HelperOk(t, t.helpers[h])
    {
      if h != Actor(a) {
        OthersStep(s, a, h);
        WokenSame(s.helpers[h]);
        var x := s.helpers[h];
        assert HelperOk(s, x);
        TakenStays(s, t, x.first);
        if x.pc.Stealing? || x.pc.Taking? {
          TakenStays(s, t, x.pc.p);
        }
      }
    }
  }

  // Counts ------------------------------------------------------------------------------

  /** The counts have changed as the acting helper has. */
  ghost predicate Counted(s: State, t: State, x: Id) {
    && x in s.helpers && x in t.helpers
    && t.activeCount + One(IsActive(s.helpers[x].pc)) == s.activeCount + One(IsActive(t.helpers[x].pc))
    && t.helperCount + One(InLoop(s.helpers[x].pc)) == s.helperCount + One(InLoop(t.helpers[x].pc))
  }

  lemma IdleCounters(s: State, a: Action)
    requires Allowed(s, a) && Idles(s, a) && s.helperCount > 0 && (a.RecheckTop? ==> s.activeCount > 0)
    ensures Counted(s, Next(s, a), Actor(a))
  {
    hide Next;
    ActorResolves(s, a);
  }

  lemma BusyCounters(s: State, a: Action)
    requires Allowed(s, a) && !Idles(s, a)
    ensures Counted(s, Next(s, a), Actor(a))
  {
    hide AfterSteal, AfterMark, Idle, Decided, ToGet, Woken;
  }

  lemma CountersStep(s: State, a: Action)
    requires Allowed(s, a)
    requires IsActive(s.helpers[Actor(a)].pc) ==> s.activeCount > 0
    requires InLoop(s.helpers[Actor(a)].pc) ==> s.helperCount > 0
    ensures Counted(s, Next(s, a), Actor(a))
  {
    hide Next, Counted;
    if Idles(s, a) {
      IdleCounters(s, a);
    } else {
      BusyCounters(s, a);
    }
  }

  lemma SameBut(before: set<Id>, after: set<Id>, x: Id)
    requires forall h :: h != x ==> (h in before <==> h in after)
    ensures |after| + One(x in before) == |before| + One(x in after)
  {
    assert before - {x} == after - {x};
    assert |before - {x}| + One(x in before) == |before|;
    assert |after - {x}| + One(x in after) == |after|;
  }

  lemma Positive(a: set<Id>, x: Id)
    requires x in a
    ensures |a| > 0
  {
  }

  lemma CountsStep(s: State, a: Action)
    requires CountsOk(s) && Allowed(s, a)
    ensures CountsOk(Next(s, a))
  {
    hide Next, Woken, Allowed;
    var t := Next(s, a);
    HelpersAreTheSame(s, a);
    var x := Actor(a);
    if x in ActiveSet(s) { Positive(ActiveSet(s), x); }
    if x in InLoopSet(s) { Positive(InLoopSet(s), x); }
    CountersStep(s, a);
    forall h | h in s.helpers && h != x
      ensures IsActive(s.helpers[h].pc) == IsActive(t.helpers[h].pc) && InLoop(s.helpers[h].pc) == InLoop(t.helpers[h].pc)
    {
      OthersStep(s, a, h);
      WokenSame(s.helpers[h]);
    }
    SameBut(ActiveSet(s), ActiveSet(t), x);
    SameBut(InLoopSet(s), InLoopSet(t), x);
  }

  // Work --------------------------------------------------------------------------------

  lemma WorkStep(s: State, a: Action)
    requires IndicesOk(s) && NoWorkLost(s) && Allowed(s, a)
    ensures NoWorkLost(Next(s, a))
  {
    hide Next, Woken, Allowed;
    var t := Next(s, a);
    HelpersAreTheSame(s, a);
    if !t.invalid {
      forall i | i in t.issued
        ensures i in t.processed || Pending(t, i)
      {
        ItemStep(s, a, i);
      }
    }
  }

  /** Where an item can be found after a step: the four cases are the four ways to hold it. */
  lemma ItemStep(s: State, a: Action, i: Entry)
    requires IndicesOk(s) && NoWorkLost(s) && Allowed(s, a) && !Next(s, a).invalid && i in Next(s, a).issued
    ensures i in Next(s, a).processed || Pending(Next(s, a), i)
  {
    hide Next, Woken, Allowed;
    var t := Next(s, a);
    var x := Actor(a);
    HelpersAreTheSame(s, a);
    InvalidStays(s, a);
    if i !in s.issued {
      NewItemIsHeld(s, a, i);
    } else if i in s.processed {
    } else if h :| h in s.helpers && h != x && Holds(s.helpers[h], i) {
      OthersStep(s, a, h);
      WokenSame(s.helpers[h]);
      assert Holds(t.helpers[h], i);
    } else if Holds(s.helpers[x], i) {
      HeldItemStep(s, a, i);
    } else {
      var k :| 0 <= k < |s.slots| && !s.slots[k].taken && s.slots[k].item == i;
      WaitingItemStep(s, a, i, k);
    }
  }

  lemma InvalidStays(s: State, a: Action)
    requires Allowed(s, a)
    ensures s.invalid ==> Next(s, a).invalid
    ensures s.processed <= Next(s, a).processed
  {
  }

  lemma NewItemIsHeld(s: State, a: Action, i: Entry)
    requires Allowed(s, a) && i in Next(s, a).issued && i !in s.issued && !Next(s, a).invalid
    ensures Pending(Next(s, a), i)
  {
    hide Woken;
    assert a.MarkNext? && Holds(Next(s, a).helpers[a.h], i);
  }

  lemma HeldItemStep(s: State, a: Action, i: Entry)
    requires IndicesOk(s) && Allowed(s, a) && Holds(s.helpers[Actor(a)], i) && !Next(s, a).invalid
    ensures i in Next(s, a).processed || Pending(Next(s, a), i)
  {
    hide AfterSteal, AfterMark, AfterOther, TakenBelow;
    assert HelperOk(s, s.helpers[Actor(a)]);
    if a.Pop? || a.MarkNext? || a.ScanDone? {
      ScannedItemStep(s, a, i);
    } else if a.ReturnAll? || a.Share? {
      ReturnedItemStep(s, a, i);
    } else if Steals(a) {
      StolenItemStep(s, a, i);
    } else if a.NotifyAll? {
      NotifiedItemStep(s, a, i);
    }
  }

  lemma ReturnedItemStep(s: State, a: Action, i: Entry)
    requires Allowed(s, a) && (a.ReturnAll? || a.Share?) && Holds(s.helpers[a.h], i) && !Next(s, a).invalid
    ensures Pending(Next(s, a), i)
  {
    hide AfterSteal, AfterOther, Returned;
    var t, local := Next(s, a), s.helpers[a.h].local;
    var bottom := if a.ReturnAll? then |local| else (|local| - 1) / 2;
    assert local == local[..bottom] + local[bottom..] && local[..|local|] == local;
    if i in local[..bottom] {
      ReturnedHolds(s, local[..bottom], i);
    } else {
      assert Holds(t.helpers[a.h], i);
    }
  }

  lemma StolenItemStep(s: State, a: Action, i: Entry)
    requires Allowed(s, a) && Steals(a) && Holds(s.helpers[a.h], i)
    ensures Pending(Next(s, a), i)
  {
    hide AfterMark, AfterOther;
    assert Holds(Next(s, a).helpers[a.h], i);
  }

  lemma NotifiedItemStep(s: State, a: Action, i: Entry)
    requires Allowed(s, a) && a.NotifyAll? && Holds(s.helpers[a.h], i)
    ensures Pending(Next(s, a), i)
  {
    hide AfterSteal, AfterMark, WokenUp;
    WokenSame(s.helpers[a.h]);
    assert Holds(Next(s, a).helpers[a.h], i);
  }

  lemma ScannedItemStep(s: State, a: Action, i: Entry)
    requires Allowed(s, a) && (a.Pop? || a.MarkNext? || a.ScanDone?) && Holds(s.helpers[a.h], i) && !Next(s, a).invalid
    ensures i in Next(s, a).processed || Pending(Next(s, a), i)
  {
    hide AfterOther, AfterSteal, Returned, Targets;
    assert i in Next(s, a).processed || Holds(Next(s, a).helpers[a.h], i);
  }

  lemma ReturnedHolds(s: State, items: seq<Entry>, i: Entry)
    requires i in items
    ensures Returned(s, items).invalid ||
            exists k :: 0 <= k < |Returned(s, items).slots| && !Returned(s, items).slots[k].taken
                        && Returned(s, items).slots[k].item == i
  {
    var j :| 0 <= j < |items| && items[j] == i;
    if |s.slots| + |items| <= s.capacity {
      assert Returned(s, items).slots[|s.slots| + j] == Slot(i, false);
    }
  }

  /** An entry is read for taking only while it has not been taken, and by nobody who has read enough or all there were. */
  lemma OnlyWaitingEntriesAreRead(s: State, a: Action)
    requires IndicesOk(s) && Allowed(s, a) && a.StealRead?
    ensures a.h in s.helpers && s.helpers[a.h].pc.Stealing? && a.h in Next(s, a).helpers
    ensures var Stealing(p, high, got, max) := s.helpers[a.h].pc;
      Next(s, a).helpers[a.h].pc.Taking? <==> p < high && got <= max && !s.slots[p].taken
  {
    hide AfterMark, AfterOther, TakenBelow;
    assert HelperOk(s, s.helpers[a.h]);
  }

  /**
   A helper that has read the shared index does not look at slots below it, and lifts the index if it lags behind.
   It takes the lock only if there is nothing above.
   */
  lemma IndicesMeet(s: State, a: Action)
    requires IndicesOk(s) && Allowed(s, a) && (a.ReadFirst? || a.RaiseFirst? || a.LoadTop?) && a.h in Next(s, a).helpers
    ensures a.LoadTop? ==> (Next(s, a).helpers[a.h].pc == Lock <==> |s.slots| <= s.helpers[a.h].first)
    ensures a.ReadFirst? ==> Next(s, a).helpers[a.h].first >= s.firstNonempty
    ensures a.RaiseFirst? && s.firstNonempty == s.helpers[a.h].pc.seen ==>
              s.firstNonempty < Next(s, a).firstNonempty == s.helpers[a.h].first
  {
    hide AfterSteal, AfterMark, TakenBelow;
    assert HelperOk(s, s.helpers[a.h]);
  }

  /** The private stack is in bounds. A helper that takes entries has counted them, and goes on only while they are few. */
  ghost predicate CountsTaken(x: Helper) {
    && |x.local| <= LOCAL_MARK_STACK_SIZE
    && (x.pc.Stealing? || x.pc.Taking? ==>
          |x.local| <= x.pc.got && x.pc.max <= ENTRIES_TO_GET && (x.pc.Taking? ==> x.pc.got <= x.pc.max))
    && (x.pc.Stealing? ==> |x.local| <= ENTRIES_TO_GET + 1)
  }

  ghost predicate AllCountTaken(s: State) {
    forall h :: h in s.helpers ==> CountsTaken(s.helpers[h])
  }

  /** So nobody takes more than `ENTRIES_TO_GET` and one more at a time, and no private stack ever has more than it can hold. */
  lemma FewAreTaken(s: State, a: Action)
    requires IndicesOk(s) && AllCountTaken(s) && Allowed(s, a)
    ensures AllCountTaken(Next(s, a))
    ensures a.StealRead? && a.h in Next(s, a).helpers && Next(s, a).helpers[a.h].pc.Local? ==>
              |Next(s, a).helpers[a.h].local| <= s.helpers[a.h].pc.got
    ensures a.StealClear? && a.h in Next(s, a).helpers ==> |Next(s, a).helpers[a.h].local| <= ENTRIES_TO_GET + 1
  {
    hide Next, Allowed, CountsTaken, IndicesOk;
    var t := Next(s, a);
    HelpersAreTheSame(s, a);
    ActorCountsTaken(s, a);
    forall h | h in t.helpers ensures CountsTaken(t.helpers[h]) {
      if h != Actor(a) {
        OthersStep(s, a, h);
        WokenCountsTaken(s.helpers[h]);
      }
    }
  }

  lemma WokenCountsTaken(x: Helper)
    ensures CountsTaken(WokenUp(x)) <==> CountsTaken(x)
  {
  }

  lemma ActorCountsTaken(s: State, a: Action)
    requires IndicesOk(s) && AllCountTaken(s) && Allowed(s, a)
    ensures Actor(a) in Next(s, a).helpers && CountsTaken(Next(s, a).helpers[Actor(a)])
    ensures a.StealRead? && Next(s, a).helpers[a.h].pc.Local? ==> |Next(s, a).helpers[a.h].local| <= s.helpers[a.h].pc.got
    ensures a.StealClear? ==> |Next(s, a).helpers[a.h].local| <= ENTRIES_TO_GET + 1
  {
    hide AfterSteal, AfterMark, AfterOther, CountsTaken, TakenBelow;
    assert HelperOk(s, s.helpers[Actor(a)]) && CountsTaken(s.helpers[Actor(a)]);
    if Steals(a) {
      StealCountsTaken(s, a);
    } else if Marks(a) {
      assert !a.StealRead? && !a.StealClear?;
      MarkTakesNone(s, a);
    } else {
      OtherCountsTaken(s, a);
    }
  }

  lemma StealCountsTaken(s: State, a: Action)
    requires Allowed(s, a) && Steals(a) && CountsTaken(s.helpers[a.h])
    ensures CountsTaken(Next(s, a).helpers[a.h])
    ensures a.StealRead? && Next(s, a).helpers[a.h].pc.Local? ==> |Next(s, a).helpers[a.h].local| <= s.helpers[a.h].pc.got
    ensures a.StealClear? ==> |Next(s, a).helpers[a.h].local| <= ENTRIES_TO_GET + 1
  {
    hide AfterMark, AfterOther;
  }

  /**
   An object marked for the first time, or in a race, goes on the private stack unless it holds no
   pointers; a full stack loses its topmost entries before, and the mark state becomes invalid.
   */
  lemma PushesLocally(s: State, h: Id)
    requires Allowed(s, MarkNext(h, false)) && s.helpers[h].pc.rest[0].blk in s.heap.hdrs
    ensures h in Next(s, MarkNext(h, false)).helpers
    ensures var q, local := s.helpers[h].pc.rest[0], s.helpers[h].local;
      var t := Next(s, MarkNext(h, false)); var local' := t.helpers[h].local;
      if q in s.marked || !s.heap.hdrs[q.blk].HasDescr() then local' == local && t.invalid == s.invalid
      else
        && local' != [] && local'[|local'| - 1] == ObjRange(q) && ObjRange(q) in t.issued
        && if |local| < LOCAL_MARK_STACK_SIZE then local' == local + [ObjRange(q)] && t.invalid == s.invalid
           else |local'| == |local| - MARK_STACK_DISCARDS + 1 && local'[..|local'| - 1] <= local && t.invalid
  {
    hide AfterSteal, AfterOther, Targets;
  }

  lemma MarkTakesNone(s: State, a: Action)
    requires Allowed(s, a) && Marks(a) && CountsTaken(s.helpers[a.h])
    ensures a.h in Next(s, a).helpers && CountsTaken(Next(s, a).helpers[a.h])
  {
    hide AfterSteal, AfterOther;
  }

  lemma OtherCountsTaken(s: State, a: Action)
    requires Allowed(s, a) && !Steals(a) && !Marks(a) && HelperOk(s, s.helpers[Actor(a)]) && CountsTaken(s.helpers[Actor(a)])
    ensures Actor(a) in Next(s, a).helpers && CountsTaken(Next(s, a).helpers[Actor(a)])
  {
    hide AfterSteal, AfterMark, Idle, Decided, WokenUp, TakenBelow;
    WokenSame(s.helpers[Actor(a)]);
    if Idles(s, a) {
      ActorResolves(s, a);
    }
  }

  lemma WaitingItemStep(s: State, a: Action, i: Entry, k: nat)
    requires IndicesOk(s) && Allowed(s, a)
    requires k < |s.slots| && !s.slots[k].taken && s.slots[k].item == i
    ensures Pending(Next(s, a), i)
  {
    hide Woken;
    SlotsStep(s, a);
    var t := Next(s, a);
    assert HelperOk(s, s.helpers[Actor(a)]);
    if a.StealClear? && s.helpers[a.h].pc.p == k {
      assert Holds(t.helpers[a.h], i);
    } else {
      assert !t.slots[k].taken && t.slots[k].item == i;
    }
  }

  // Sleepers and the initiator ----------------------------------------------------------

  /** What the acting helper does to the conditions that sleepers wait for. */
  lemma WaitingIsJustified(s: State, a: Action)
    requires Allowed(s, a)
    ensures Actor(a) in Next(s, a).helpers
    ensures Next(s, a).helpers[Actor(a)].pc == Waiting(true) ==>
              Next(s, a).activeCount > 0 && Next(s, a).firstNonempty >= |Next(s, a).slots|
  {
    hide AfterSteal, AfterMark, Idle, Decided, ToGet, Woken;
    if Idles(s, a) {
      ActorResolves(s, a);
    }
  }

  lemma DrainingIsJustified(s: State, a: Action)
    requires Allowed(s, a)
    ensures Actor(a) in Next(s, a).helpers
    ensures Next(s, a).helpers[Actor(a)].pc == Draining(true) ==> Next(s, a).helperCount > 0
  {
    hide AfterSteal, AfterMark, Idle, Decided, ToGet, Woken;
    if Idles(s, a) {
      ActorResolves(s, a);
    }
  }

  lemma GrowthIsSignalled(s: State, a: Action)
    requires Allowed(s, a)
    ensures Actor(a) in Next(s, a).helpers
    ensures |Next(s, a).slots| > |s.slots| ==> Next(s, a).helpers[Actor(a)].pc == Notify
    ensures s.helpers[Actor(a)].pc == Notify ==> a.NotifyAll?
  {
    hide Woken;
  }

  /** Whoever makes one of these conditions true wakes all sleepers in the same step. */
  lemma WakeStep(s: State, a: Action, h: Id)
    requires Allowed(s, a) && h in s.helpers && h != Actor(a)
    requires || a.NotifyAll?
             || (s.activeCount > 0 && Next(s, a).activeCount == 0)
             || (s.helperCount > 0 && Next(s, a).helperCount == 0)
    ensures h in Next(s, a).helpers
    ensures Next(s, a).helpers[h].pc != Waiting(true) && Next(s, a).helpers[h].pc != Draining(true)
  {
    hide Next, Allowed, WokenUp;
    if !MayWake(a) {
      NobodyElseCounts(s, a);
    }
    OthersWoken(s, a, h);
    WokenSame(s.helpers[h]);
  }

  /** Only steps that wake up all others can bring a count down to zero. */
  lemma NobodyElseCounts(s: State, a: Action)
    requires Allowed(s, a) && !MayWake(a)
    ensures s.activeCount > 0 ==> Next(s, a).activeCount > 0
    ensures s.helperCount > 0 ==> Next(s, a).helperCount > 0
  {
    hide AfterSteal, AfterMark, ToGet, Woken;
  }

  lemma SleepersStep(s: State, a: Action)
    requires IndicesOk(s) && SleepersOk(s) && Allowed(s, a)
    ensures SleepersOk(Next(s, a))
  {
    hide Next, Woken, Allowed, HelperOk, TakenBelow;
    var t := Next(s, a);
    var x := Actor(a);
    HelpersAreTheSame(s, a);
    WaitingIsJustified(s, a);
    DrainingIsJustified(s, a);
    GrowthIsSignalled(s, a);
    SlotsStep(s, a);
    forall h | h in t.helpers && t.helpers[h].pc == Waiting(true)
      ensures (t.activeCount > 0 && t.firstNonempty >= |t.slots|) || exists n :: n in t.helpers && t.helpers[n].pc == Notify
    {
      if h != x {
        OthersStep(s, a, h);
        WokenSame(s.helpers[h]);
        if a.NotifyAll? || (s.activeCount > 0 && t.activeCount == 0) {
          WakeStep(s, a, h);
        } else if n :| n in s.helpers && s.helpers[n].pc == Notify {
          assert n != x;
          OthersStep(s, a, n);
          WokenSame(s.helpers[n]);
          assert t.helpers[n].pc == Notify;
        }
      }
    }
    if MAIN in t.helpers && t.helpers[MAIN].pc == Draining(true) && MAIN != x {
      OthersStep(s, a, MAIN);
      WokenSame(s.helpers[MAIN]);
      if t.helperCount == 0 {
        WakeStep(s, a, MAIN);
      }
    }
  }

  /** How the initiator's own state moves, and who may still become active. */
  ghost predicate InitiatorMoved(s: State, t: State, x: Id) {
    && x in t.helpers && MAIN in t.helpers
    && (x == MAIN ==> !t.helpers[MAIN].pc.Out? && !t.helpers[MAIN].pc.Gone? && (t.helpWanted <==> InLoop(t.helpers[MAIN].pc)))
    && (x == MAIN && t.helpers[MAIN].pc == Finished ==> t.helperCount == 0)
    && (x != MAIN ==> !t.helpers[x].pc.Draining? && !t.helpers[x].pc.Finished? && t.helpWanted == s.helpWanted)
    && (!s.helpWanted ==> t.helperCount <= s.helperCount)
    && (!t.helpWanted ==> t.activeCount == 0)
    && (t.activeCount == 0 ==> t.firstNonempty >= |t.slots|)
  }

  lemma IdleInitiator(s: State, a: Action)
    requires InitiatorOk(s) && Allowed(s, a) && Idles(s, a) && (a.RecheckTop? ==> s.activeCount > 0)
    ensures InitiatorMoved(s, Next(s, a), Actor(a))
  {
    hide AfterOther;
    ActorResolves(s, a);
  }

  lemma BusyInitiator(s: State, a: Action)
    requires InitiatorOk(s) && Allowed(s, a) && !Idles(s, a)
    requires IsActive(s.helpers[Actor(a)].pc) ==> s.activeCount > 0
    ensures InitiatorMoved(s, Next(s, a), Actor(a))
  {
    hide AfterSteal, AfterMark, AfterOther, InitiatorMoved;
    if Steals(a) || Marks(a) {
      WorkingInitiator(s, a);
    } else {
      OtherInitiator(s, a);
    }
  }

  lemma WorkingInitiator(s: State, a: Action)
    requires InitiatorOk(s) && Allowed(s, a) && (Steals(a) || Marks(a)) && s.activeCount > 0
    ensures InitiatorMoved(s, Next(s, a), Actor(a))
  {
    hide AfterSteal, AfterMark, AfterOther;
  }

  lemma OtherInitiator(s: State, a: Action)
    requires InitiatorOk(s) && Allowed(s, a) && !Steals(a) && !Marks(a) && !Idles(s, a)
    requires IsActive(s.helpers[Actor(a)].pc) ==> s.activeCount > 0
    ensures InitiatorMoved(s, Next(s, a), Actor(a))
  {
    hide AfterSteal, AfterMark, Idle, Decided, ToGet, Woken;
  }

  lemma InitiatorSelf(s: State, a: Action)
    requires InitiatorOk(s) && CountsOk(s) && Allowed(s, a)
    ensures InitiatorMoved(s, Next(s, a), Actor(a))
  {
    hide Next, InitiatorOk, InitiatorMoved;
    if Actor(a) in ActiveSet(s) { Positive(ActiveSet(s), Actor(a)); }
    if Idles(s, a) {
      IdleInitiator(s, a);
    } else {
      BusyInitiator(s, a);
    }
  }

  lemma InitiatorStep(s: State, a: Action)
    requires InitiatorOk(s) && CountsOk(s) && IndicesOk(s) && Allowed(s, a)
    ensures InitiatorOk(Next(s, a))
  {
    hide Next, Woken, Allowed, HelperOk, TakenBelow;
    var t := Next(s, a);
    HelpersAreTheSame(s, a);
    InitiatorSelf(s, a);
    SlotsStep(s, a);
    forall h | h in t.helpers && h != Actor(a)
      ensures InLoop(t.helpers[h].pc) == InLoop(s.helpers[h].pc) && t.helpers[h].pc.Out? == s.helpers[h].pc.Out?
      ensures t.helpers[h].pc.Gone? == s.helpers[h].pc.Gone?
      ensures t.helpers[h].pc.Draining? == s.helpers[h].pc.Draining? && t.helpers[h].pc.Finished? == s.helpers[h].pc.Finished?
    {
      OthersStep(s, a, h);
      WokenSame(s.helpers[h]);
    }
  }

  lemma StepKeepsInv(s: State, a: Action)
    requires Inv(s) && Allowed(s, a)
    ensures Inv(Next(s, a))
  {
    hide Next, Allowed, IndicesOk, CountsOk, NoWorkLost, SleepersOk, InitiatorOk;
    IndicesStep(s, a);
    CountsStep(s, a);
    WorkStep(s, a);
    SleepersStep(s, a);
    InitiatorStep(s, a);
  }

  // Marks -------------------------------------------------------------------------------

  lemma MarksGrow(s: State, a: Action)
    requires Allowed(s, a)
    ensures var t := Next(s, a); t.heap == s.heap && s.marked <= t.marked && s.issued <= t.issued
  {
    hide AfterSteal, AfterMark, AfterOther;
  }

  /** What is on the shared stack has been issued, since what is on the private ones has. */
  lemma SlotsAreIssued(s: State, a: Action, start: set<Obj>)
    requires MarksOk(s, start) && IndicesOk(s) && Allowed(s, a)
    ensures forall k :: 0 <= k < |Next(s, a).slots| ==> Next(s, a).slots[k].item in Next(s, a).issued
  {
    hide AfterOther, PushedLocally, HelperOk, HeapOk, ToGet;
    if Marks(a) {
      assert ScanOk(s, s.helpers[a.h]);
    } else if Steals(a) {
      SlotsStep(s, a);
    }
  }

  lemma ActorScanOk(s: State, a: Action, start: set<Obj>)
    requires MarksOk(s, start) && IndicesOk(s) && Allowed(s, a)
    ensures Actor(a) in Next(s, a).helpers && ScanOk(Next(s, a), Next(s, a).helpers[Actor(a)])
  {
    hide AfterSteal, AfterMark, AfterOther, ScanOk, Targets, HeapOk, ToGet;
    var x := Actor(a);
    assert ScanOk(s, s.helpers[x]) && HelperOk(s, s.helpers[x]);
    if Steals(a) {
      StealScanOk(s, a);
    } else if Marks(a) {
      MarkScanOk(s, a);
    } else {
      OtherScanOk(s, a);
    }
  }

  lemma StealScanOk(s: State, a: Action)
    requires Allowed(s, a) && Steals(a) && ScanOk(s, s.helpers[a.h]) && HelperOk(s, s.helpers[a.h])
    requires forall k :: 0 <= k < |s.slots| ==> s.slots[k].item in s.issued
    ensures ScanOk(Next(s, a), Next(s, a).helpers[a.h])
  {
    hide AfterMark, AfterOther, Targets, TakenBelow;
  }

  lemma MarkScanOk(s: State, a: Action)
    requires Allowed(s, a) && Marks(a) && ScanOk(s, s.helpers[a.h])
    ensures ScanOk(Next(s, a), Next(s, a).helpers[a.h])
  {
    hide AfterSteal, AfterOther, Targets, Returned;
    if a.MarkNext? {
      ScanNextOk(s, a);
    }
  }

  lemma ScanNextOk(s: State, a: Action)
    requires Allowed(s, a) && a.MarkNext? && ScanOk(s, s.helpers[a.h])
    ensures ScanOk(Next(s, a), Next(s, a).helpers[a.h])
  {
    hide AfterSteal, AfterOther, Targets, Returned;
  }

  lemma OtherScanOk(s: State, a: Action)
    requires Allowed(s, a) && !Steals(a) && !Marks(a) && Actor(a) in s.helpers
    requires HelperOk(s, s.helpers[Actor(a)]) && ScanOk(s, s.helpers[Actor(a)])
    ensures ScanOk(Next(s, a), Next(s, a).helpers[Actor(a)])
  {
    hide AfterSteal, AfterMark, Targets, TakenBelow, WokenUp, ToGet, Idle, Decided;
    if Idles(s, a) {
      ActorResolves(s, a);
    }
    WokenSame(s.helpers[Actor(a)]);
  }

  /** Entries are processed only when all they lead to is marked, and marks are not set without a push. */
  lemma MarkedIsIssued(s: State, a: Action, start: set<Obj>)
    requires MarksOk(s, start) && Allowed(s, a)
    ensures forall i, q :: i in Next(s, a).processed && q in Targets(s.heap, i) ==> q in Next(s, a).marked
    ensures forall o :: o in Next(s, a).marked && o !in start && Targets(s.heap, ObjRange(o)) != [] ==>
              ObjRange(o) in Next(s, a).issued
  {
    hide AfterOther, AfterSteal, Targets;
    if a.MarkNext? {
      NewMarkIsIssued(s, a.h, a.raced);
    } else if Marks(a) {
      assert ScanOk(s, s.helpers[a.h]);
      hide Returned;
    }
  }

  lemma NewMarkIsIssued(s: State, h: Id, raced: bool)
    requires Allowed(s, MarkNext(h, raced)) && HeapOk(s.heap)
    ensures var t := Next(s, MarkNext(h, raced)); t.processed == s.processed && s.marked <= t.marked && s.issued <= t.issued
    ensures var t := Next(s, MarkNext(h, raced));
      forall o :: o in t.marked && o !in s.marked && Targets(s.heap, ObjRange(o)) != [] ==> ObjRange(o) in t.issued
  {
    hide AfterOther, AfterSteal, Returned;
  }

  lemma MarksStep(s: State, a: Action, start: set<Obj>)
    requires MarksOk(s, start) && IndicesOk(s) && Allowed(s, a)
    ensures MarksOk(Next(s, a), start)
  {
    hide Next, Allowed, IndicesOk, Targets, HeapOk;
    var t := Next(s, a);
    MarksGrow(s, a);
    SlotsAreIssued(s, a, start);
    MarkedIsIssued(s, a, start);
    HelpersAreTheSame(s, a);
    forall h | h in t.helpers ensures ScanOk(t, t.helpers[h]) {
      if h == Actor(a) {
        ActorScanOk(s, a, start);
      } else {
        OthersStep(s, a, h);
        WokenSame(s.helpers[h]);
        assert ScanOk(s, s.helpers[h]);
      }
    }
  }

  lemma JustifiedStep(s: State, a: Action, start: set<Obj>, from: set<Obj>)
    requires MarksOk(s, start) && MarksJustified(s, from) && Allowed(s, a)
    ensures MarksJustified(Next(s, a), from)
  {
    hide AfterOther, AfterSteal, Returned, Targets, Reaches;
    if a.MarkNext? {
      var q := s.helpers[a.h].pc.rest[0];
      assert ScanOk(s, s.helpers[a.h]);
      assert Reaches(s.heap.fields, from, q);
      TargetsAreReached(s.heap, from, q);
    }
  }

  lemma TargetsAreReached(w: Heap, from: set<Obj>, o: Obj)
    requires Reaches(w.fields, from, o)
    ensures forall q :: q in Targets(w, ObjRange(o)) ==> Reaches(w.fields, from, q)
  {
    hide Reaches;
    forall q | q in Targets(w, ObjRange(o)) ensures Reaches(w.fields, from, q) {
      ReachesStep(w.fields, from, o, q);
    }
  }

  // -----------------------------------------------------------------------------------
  // Whole runs
  // -----------------------------------------------------------------------------------

  /** A run from the start of `GC_do_parallel_mark`: each state follows from the one before. */
  ghost predicate IsRun(items: seq<Entry>, states: seq<State>, actions: seq<Action>) {
    && |states| == |actions| + 1
    && Initial(states[0], items)
    && forall i :: 0 <= i < |actions| ==> Allowed(states[i], actions[i]) && states[i + 1] == Next(states[i], actions[i])
  }

  lemma {:induction false} RunKeepsInv(items: seq<Entry>, states: seq<State>, actions: seq<Action>, n: nat)
    requires IsRun(items, states, actions) && n < |states|
    ensures Inv(states[n]) && MarksOk(states[n], states[0].marked) && states[n].heap == states[0].heap
    ensures forall i :: i in items ==> i in states[n].issued
    decreases n
  {
    hide Next, Allowed, MarksOk, IndicesOk, CountsOk, NoWorkLost, SleepersOk, InitiatorOk;
    if n == 0 {
      InitialInv(states[0], items);
    } else {
      RunKeepsInv(items, states, actions, n - 1);
      assert states[n] == Next(states[n - 1], actions[n - 1]);
      StepKeepsInv(states[n - 1], actions[n - 1]);
      MarksStep(states[n - 1], actions[n - 1], states[0].marked);
      MarksGrow(states[n - 1], actions[n - 1]);
    }
  }

  /** In every reachable state the entries below the shared first index are all taken. */
  lemma FirstIndexIsHonest(items: seq<Entry>, states: seq<State>, actions: seq<Action>, n: nat)
    requires IsRun(items, states, actions) && n < |states|
    ensures states[n].firstNonempty <= |states[n].slots|
    ensures forall k :: 0 <= k < states[n].firstNonempty ==> states[n].slots[k].taken
  {
    RunKeepsInv(items, states, actions, n);
  }

  /**
   When `GC_do_parallel_mark` returns, no helper runs, all local stacks are empty, and every
   entry there ever was has been processed, unless the mark state is invalid.
   */
  lemma NothingIsLeftAtReturn(items: seq<Entry>, states: seq<State>, actions: seq<Action>, n: nat)
    requires IsRun(items, states, actions) && n < |states|
    requires MAIN in states[n].helpers && states[n].helpers[MAIN].pc == Finished
    ensures !states[n].helpWanted && states[n].helperCount == 0 && states[n].activeCount == 0
    ensures forall h :: h in states[n].helpers ==> !InLoop(states[n].helpers[h].pc) && states[n].helpers[h].local == []
    ensures states[n].invalid || forall i :: i in states[n].issued ==> i in states[n].processed
    ensures states[n].invalid || forall i :: i in items ==> i in states[n].processed
  {
    var s := states[n];
    RunKeepsInv(items, states, actions, n);
    forall h | h in s.helpers
      ensures !InLoop(s.helpers[h].pc) && s.helpers[h].local == []
    {
      if h in InLoopSet(s) { Positive(InLoopSet(s), h); }
      assert HelperOk(s, s.helpers[h]);
    }
  }

  lemma {:induction false} RunKeepsJustified(items: seq<Entry>, states: seq<State>, actions: seq<Action>, n: nat, from: set<Obj>)
    requires IsRun(items, states, actions) && n < |states|
    requires var w := states[0].heap; Justified(w.fields, w.segs, states[0].marked, items, from)
    ensures MarksJustified(states[n], from)
    decreases n
  {
    hide Next, Allowed, MarksOk, Inv, Reaches;
    if n == 0 {
      StartIsJustified(states[0], items, from);
    } else {
      RunKeepsInv(items, states, actions, n - 1);
      RunKeepsJustified(items, states, actions, n - 1, from);
      assert states[n] == Next(states[n - 1], actions[n - 1]);
      JustifiedStep(states[n - 1], actions[n - 1], states[0].marked, from);
    }
  }

  lemma StartIsJustified(s: State, items: seq<Entry>, from: set<Obj>)
    requires Initial(s, items) && Justified(s.heap.fields, s.heap.segs, s.marked, items, from)
    ensures MarksJustified(s, from)
  {
    hide Reaches;
    forall i, q | i in s.issued && q in Targets(s.heap, i) ensures Reaches(s.heap.fields, from, q) {
      var k :| 0 <= k < |items| && items[k] == i;
    }
  }

  /**
   What the helpers do together is what `GC_mark_from` does alone: unless the mark state has
   become invalid, no object and no root segment points to something unmarked that did not do
   so before while off the mark stack; and nothing is marked without a reason.
   */
  lemma ParallelMarkingIsMarking(items: seq<Entry>, states: seq<State>, actions: seq<Action>, n: nat, from: set<Obj>)
    requires IsRun(items, states, actions) && n < |states|
    requires MAIN in states[n].helpers && states[n].helpers[MAIN].pc == Finished
    requires var w := states[0].heap; Justified(w.fields, w.segs, states[0].marked, items, from)
    ensures states[0].marked <= states[n].marked
    ensures !states[n].invalid ==> var w := states[0].heap;
              BadObjs(w.fields, states[n].marked, []) <= BadObjs(w.fields, states[0].marked, items)
    ensures !states[n].invalid ==> var w := states[0].heap;
              BadSegs(w.segs, states[n].marked, []) <= BadSegs(w.segs, states[0].marked, items)
    ensures forall o :: o in states[n].marked ==> Reaches(states[0].heap.fields, from, o)
  {
    RunKeepsInv(items, states, actions, n);
    RunKeepsJustified(items, states, actions, n, from);
    NothingIsLeftAtReturn(items, states, actions, n);
    if !states[n].invalid {
      NothingNewIsBad(states[n], states[0].marked, items);
    }
  }

  lemma NothingNewIsBad(s: State, start: set<Obj>, items: seq<Entry>)
    requires MarksOk(s, start) && forall i :: i in s.issued || i in items ==> i in s.processed
    ensures BadObjs(s.heap.fields, s.marked, []) <= BadObjs(s.heap.fields, start, items)
    ensures BadSegs(s.heap.segs, s.marked, []) <= BadSegs(s.heap.segs, start, items)
  {
    var w := s.heap;
    forall o | o in BadObjs(w.fields, s.marked, []) ensures o in BadObjs(w.fields, start, items) {
      assert Targets(w, ObjRange(o)) == w.fields[o];
    }
    forall g | g in BadSegs(w.segs, s.marked, []) ensures g in BadSegs(w.segs, start, items) {
      assert Targets(w, RootRange(g)) == w.segs[g];
    }
  }

  /** Object `o` is marked, or an entry on the mark stack leads to it. */
  ghost predicate TakenCareOf(s: State, items: seq<Entry>, o: Obj) {
    o in s.marked || exists i :: i in items && o in Targets(s.heap, i)
  }

  /** If everything was taken care of at the start, the marks at the end are exactly what can be reached. */
  lemma ParallelMarkingIsExact(items: seq<Entry>, states: seq<State>, actions: seq<Action>, n: nat, from: set<Obj>)
    requires IsRun(items, states, actions) && n < |states|
    requires MAIN in states[n].helpers && states[n].helpers[MAIN].pc == Finished && !states[n].invalid
    requires var w := states[0].heap;
      Justified(w.fields, w.segs, states[0].marked, items, from) && BadObjs(w.fields, states[0].marked, items) == {}
    requires forall o :: o in from ==> TakenCareOf(states[0], items, o)
    ensures forall o :: o in states[n].marked <==> Reaches(states[0].heap.fields, from, o)
  {
    ParallelMarkingIsMarking(items, states, actions, n, from);
    StartIsMarked(items, states, actions, n, from);
    var g, marked := states[0].heap.fields, states[n].marked;
    forall p, q | p in marked && p in g && q in g[p] ensures q in marked {
      assert p !in BadObjs(g, marked, []);
    }
    ClosedContainsReachable(g, from, marked);
  }

  lemma StartIsMarked(items: seq<Entry>, states: seq<State>, actions: seq<Action>, n: nat, from: set<Obj>)
    requires IsRun(items, states, actions) && n < |states|
    requires MAIN in states[n].helpers && states[n].helpers[MAIN].pc == Finished && !states[n].invalid
    requires forall o :: o in from ==> TakenCareOf(states[0], items, o)
    ensures from <= states[n].marked
  {
    RunKeepsInv(items, states, actions, n);
    NothingIsLeftAtReturn(items, states, actions, n);
    hide Inv;
    forall o | o in from && o !in states[0].marked ensures o in states[n].marked {
      var i :| i in items && o in Targets(states[0].heap, i);
      assert i in states[n].processed;
    }
  }

  /** Until the initiator has returned somebody can always go on without being woken first. */
  lemma NobodyIsStuck(s: State)
    requires Inv(s) && MAIN in s.helpers && s.helpers[MAIN].pc != Finished
    ensures exists a: Action :: !a.Wake? && !a.Join? && Allowed(s, a)
  {
    hide NoWorkLost, IndicesOk;
    if h :| h in s.helpers && IsActive(s.helpers[h].pc) {
      assert IndicesOk(s);
      ActiveCanMove(s, h);
    } else {
      assert ActiveSet(s) == {};
      if h :| h in s.helpers && InLoop(s.helpers[h].pc) {
        assert s.helpers[h].pc == Waiting(false);
        assert Allowed(s, Check(h));
      } else {
        assert InLoopSet(s) == {};
        assert s.helpers[MAIN].pc == Draining(false);
        assert Allowed(s, DrainCheck);
      }
    }
  }

  lemma ActiveCanMove(s: State, h: Id)
    requires h in s.helpers && IsActive(s.helpers[h].pc)
    ensures exists a: Action :: !a.Wake? && !a.Join? && Allowed(s, a)
  {
    match s.helpers[h].pc {
      case Sync => assert Allowed(s, ReadFirst(h));
      case Cas(_) => assert Allowed(s, RaiseFirst(h));
      case ReadTop => assert Allowed(s, LoadTop(h));
      case Lock => assert Allowed(s, RecheckTop(h));
      case Stealing(_, _, _, _) => assert Allowed(s, StealRead(h));
      case Taking(_, _, _, _, _) => assert Allowed(s, StealClear(h, 0));
      case Local =>
        if s.helpers[h].local == [] {
          assert Allowed(s, LocalDone(h));
        } else {
          assert Allowed(s, Pop(h));
        }
      case Scanning(_, rest) =>
        if rest == [] {
          assert Allowed(s, ScanDone(h));
        } else {
          assert Allowed(s, MarkNext(h, false));
        }
      case Notify => assert Allowed(s, NotifyAll(h));
    }
  }

  // -----------------------------------------------------------------------------------
  // The active count
  // -----------------------------------------------------------------------------------

  /** Once nobody is active, only a helper that joins late makes the count rise again. */
  lemma OnlyJoiningRaisesTheCount(s: State, a: Action)
    requires Inv(s) && s.activeCount == 0 && Allowed(s, a)
    ensures Next(s, a).activeCount > 0 <==> a.Join?
  {
    hide Next, IndicesOk, NoWorkLost, SleepersOk;
    assert Actor(a) !in ActiveSet(s);
    if Actor(a) in InLoopSet(s) { Positive(InLoopSet(s), Actor(a)); }
    HelpersAreTheSame(s, a);
    CountersStep(s, a);
    if Idles(s, a) {
      ActorResolves(s, a);
    } else {
      RestingStays(s, a);
    }
  }

  lemma RestingStays(s: State, a: Action)
    requires Allowed(s, a) && Actor(a) in s.helpers && !IsActive(s.helpers[Actor(a)].pc) && !Idles(s, a)
    ensures Actor(a) in Next(s, a).helpers
    ensures IsActive(Next(s, a).helpers[Actor(a)].pc) <==> a.Join?
  {
    hide AfterSteal, AfterMark, Idle, Decided, Woken, ToGet;
  }

  /** Whether that can happen: help is still wanted, and some helper has not joined in this cycle yet. */
  lemma CountCanRiseExactlyIfHelpCanCome(s: State)
    requires Inv(s) && s.activeCount == 0
    ensures (exists a :: Allowed(s, a) && Next(s, a).activeCount > 0)
       <==> (s.helpWanted && exists h :: h in s.helpers && h != MAIN && s.helpers[h].pc == Out)
  {
    hide Inv, Next;
    forall a | Allowed(s, a) ensures Next(s, a).activeCount > 0 <==> a.Join? {
      OnlyJoiningRaisesTheCount(s, a);
    }
    if h :| s.helpWanted && h in s.helpers && h != MAIN && s.helpers[h].pc == Out {
      assert Allowed(s, Join(h));
    }
  }

  /**
   The comment on `GC_active_count` says that the count stays zero for the rest of the cycle
   once it has come back to zero: so it does exactly in those runs in which nobody joins late.
   */
  lemma CountStaysZeroExactlyWithoutLateJoins(items: seq<Entry>, states: seq<State>, actions: seq<Action>, n: nat)
    requires IsRun(items, states, actions) && n < |states| && states[n].activeCount == 0
    ensures (forall m :: n <= m < |states| ==> states[m].activeCount == 0)
       <==> (forall m :: n <= m < |actions| ==> !actions[m].Join?)
  {
    hide Next, Inv, Allowed;
    if forall m :: n <= m < |actions| ==> !actions[m].Join? {
      for m := n to |actions|
        invariant forall k :: n <= k <= m ==> states[k].activeCount == 0
      {
        RunKeepsInv(items, states, actions, m);
        OnlyJoiningRaisesTheCount(states[m], actions[m]);
        assert states[m + 1] == Next(states[m], actions[m]);
      }
    } else {
      var m :| n <= m < |actions| && actions[m].Join?;
      RunKeepsInv(items, states, actions, m);
      assert states[m + 1] == Next(states[m], actions[m]);
      if states[m].activeCount == 0 {
        OnlyJoiningRaisesTheCount(states[m], actions[m]);
      }
    }
  }

  /** Three helpers with nothing to mark. */
  function Small(helperCount: nat, activeCount: nat, main: Pc, one: Pc, two: Pc): State {
    State(Heap(map[], map[], []), {}, [], 0, 0, false, true, helperCount, activeCount,
          map[MAIN := Helper(main, 0, []), 1 := Helper(one, 0, []), 2 := Helper(two, 0, [])], {}, {})
  }

  /** The initiator finds nothing to do. */
  lemma InitiatorLooks(helperCount: nat, activeCount: nat, one: Pc)
    ensures var s := Small(helperCount, activeCount, Sync, one, Out);
      Allowed(s, ReadFirst(MAIN)) && Next(s, ReadFirst(MAIN)) == Small(helperCount, activeCount, ReadTop, one, Out)
    ensures var s := Small(helperCount, activeCount, ReadTop, one, Out);
      Allowed(s, LoadTop(MAIN)) && Next(s, LoadTop(MAIN)) == Small(helperCount, activeCount, Lock, one, Out)
  {
    hide AfterSteal, AfterMark, Woken;
  }

  lemma HelperLooks(helperCount: nat, activeCount: nat, main: Pc)
    ensures var s := Small(helperCount, activeCount, main, Sync, Out);
      Allowed(s, ReadFirst(1)) && Next(s, ReadFirst(1)) == Small(helperCount, activeCount, main, ReadTop, Out)
    ensures var s := Small(helperCount, activeCount, main, ReadTop, Out);
      Allowed(s, LoadTop(1)) && Next(s, LoadTop(1)) == Small(helperCount, activeCount, main, Lock, Out)
  {
    hide AfterSteal, AfterMark, Woken;
  }

  lemma FallsAsleep()
    ensures Allowed(Small(2, 2, Lock, Sync, Out), RecheckTop(MAIN))
    ensures Next(Small(2, 2, Lock, Sync, Out), RecheckTop(MAIN)) == Small(2, 1, Waiting(true), Sync, Out)
  {
    hide AfterSteal, AfterMark, Woken;
  }

  lemma LeavesFirst()
    ensures Allowed(Small(2, 1, Waiting(true), Lock, Out), RecheckTop(1))
    ensures Next(Small(2, 1, Waiting(true), Lock, Out), RecheckTop(1)) == Small(1, 0, Waiting(false), Gone, Out)
  {
    hide AfterSteal, AfterMark;
    Departs();
    hide Idle, Decided;
  }

  lemma Departs()
    ensures Idle(Small(2, 1, Waiting(true), Lock, Out), 1) == Small(1, 0, Waiting(false), Gone, Out)
  {
    hide AfterSteal, AfterMark, AfterOther;
  }

  lemma Joins()
    ensures Allowed(Small(1, 1, Sync, Out, Out), Join(1))
    ensures Next(Small(1, 1, Sync, Out, Out), Join(1)) == Small(2, 2, Sync, Sync, Out)
    ensures Allowed(Small(1, 0, Waiting(false), Gone, Out), Join(2))
    ensures Next(Small(1, 0, Waiting(false), Gone, Out), Join(2)) == Small(2, 1, Waiting(false), Gone, Sync)
  {
    hide AfterSteal, AfterMark, Idle, Decided;
  }

  /** A run goes on with one more step. */
  lemma GoesOn(states: seq<State>, actions: seq<Action>, a: Action, t: State) returns (more: seq<State>, done: seq<Action>)
    requires IsRun([], states, actions)
    requires Allowed(states[|states| - 1], a) && Next(states[|states| - 1], a) == t
    ensures IsRun([], more, done) && |more| == |states| + 1 && states <= more && more[|states|] == t
  {
    hide Next, Allowed, Initial;
    more, done := states + [t], actions + [a];
  }

  /**
   A late join: the initiator has gone to sleep, helper 1 takes the count to zero, notifies
   and leaves, and helper 2 joins before the initiator has the lock again.
   */
  lemma ActiveCountMayRiseAgain() returns (states: seq<State>, actions: seq<Action>)
    ensures IsRun([], states, actions) && |states| > 2
    ensures states[|states| - 2].activeCount == 0 && states[|states| - 1].activeCount == 1
  {
    states, actions := [Small(1, 1, Sync, Out, Out)], [];
    assert IsRun([], states, actions);
    assert Small(1, 0, Waiting(false), Gone, Out).activeCount == 0 && Small(2, 1, Waiting(false), Gone, Sync).activeCount == 1;
    hide Next, Allowed, Initial, IsRun, Small;
    Joins();
    states, actions := GoesOn(states, actions, Join(1), Small(2, 2, Sync, Sync, Out));
    InitiatorLooks(2, 2, Sync);
    states, actions := GoesOn(states, actions, ReadFirst(MAIN), Small(2, 2, ReadTop, Sync, Out));
    states, actions := GoesOn(states, actions, LoadTop(MAIN), Small(2, 2, Lock, Sync, Out));
    FallsAsleep();
    states, actions := GoesOn(states, actions, RecheckTop(MAIN), Small(2, 1, Waiting(true), Sync, Out));
    HelperLooks(2, 1, Waiting(true));
    states, actions := GoesOn(states, actions, ReadFirst(1), Small(2, 1, Waiting(true), ReadTop, Out));
    states, actions := GoesOn(states, actions, LoadTop(1), Small(2, 1, Waiting(true), Lock, Out));
    LeavesFirst();
    states, actions := GoesOn(states, actions, RecheckTop(1), Small(1, 0, Waiting(false), Gone, Out));
    states, actions := GoesOn(states, actions, Join(2), Small(2, 1, Waiting(false), Gone, Sync));
  }
}
