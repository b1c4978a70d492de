/**
 Stopping and restarting the world: suspend signals, acknowledgements on a semaphore, and
 the loop in which a suspended thread waits, for any number of threads, with spurious
 wakeups and, if signals are retried, with suspend signals that get lost and are resent.
 Every action is one access to shared memory, one signal, or one semaphore operation, but for two:
 the stop count and the flag that the world is stopped are stored together, and read together by
 a thread that wakes up. Only a thread with a stale signal could read the count between the two
 stores, and a thread that reads the flag first sees what it would see at one of the two reads.
 */
module StopWorld {
  import opened Sets

  type Id = nat

  /** Where a thread is: in the client's code, or in `GC_suspend_handler_inner`. */
  datatype Pc =
    | Running
    | Delivered              // the handler has been entered
    | Loaded(c: nat)         // it has read the stop count
    | Saved(c: nat)          // it has stored the stack pointer, about to post
    | Acked(c: nat)          // it has posted, about to store its stop count
    | Asleep(c: nat)         // in the sigsuspend loop
    | AckRestart(c: nat)     // past the loop, about to post again
    | MarkRestart(c: nat)    // about to set the restarted bit

  /** `last` and `restarted` are the count and the low bit of `last_stop_count`. */
  datatype Thread = Thread(pc: Pc, last: nat, restarted: bool, sp: nat, pending: bool, live: bool)

  /** Where the collector is in `GC_stop_world` or, if `restarting`, in `GC_start_world`. */
  datatype CollectorPc =
    | Idle
    | Sending(todo: set<Id>, sent: nat)
    | Timed(left: nat)
    | Polling(left: nat)
    | Resending(left: nat, todo: set<Id>, sent: nat)
    | Barrier(left: nat)
    | Stopped

  datatype State = State(
    threads: map<Id, Thread>,
    stopCount: nat,
    worldStopped: bool,
    retry: bool,
    sem: nat,
    pc: CollectorPc,
    restarting: bool,
    ghost acked: set<Id>,
    ghost consumed: nat)

  datatype Action =
    | StopWorld
    | StartWorld
    | SendTo(t: Id)
    | Sent
    | WaitOne
    | TimeOut
    | PollDone
    | Resend
    | ResendTo(t: Id)
    | Resent
    | BarrierDone
    | Lose(t: Id)
    | Deliver(t: Id)
    | Load(t: Id)
    | Compare(t: Id)
    | Ack(t: Id)
    | StoreLast(t: Id)
    | WakeUp(t: Id)
    | AckAgain(t: Id)
    | SetRestarted(t: Id)
    | Mutate(t: Id)
    | ChangeLive(t: Id, live: bool)

  ghost function Live(s: State): set<Id> {
    set t | t in s.threads && s.threads[t].live
  }

  /** `GC_suspend_all` and `GC_restart_all` signal this thread, and count it. */
  predicate MustSignal(s: State, t: Id, again: bool)
    requires t in s.threads
  {
    var x := s.threads[t];
    x.live &&
    if s.restarting then !(again && s.retry && x.last == s.stopCount && x.restarted)
    else !(x.last == s.stopCount && !x.restarted)
  }

  ghost predicate Allowed(s: State, a: Action) {
    match a
    case StopWorld => s.pc == Idle
    case StartWorld => s.pc == Stopped
    case SendTo(t) => s.pc.Sending? && t in s.pc.todo && t in s.threads
    case Sent => s.pc.Sending? && s.pc.todo == {}
    case WaitOne => (s.pc.Timed? || s.pc.Barrier?) && s.pc.left > 0 && s.sem > 0
    case TimeOut => s.pc.Timed?
    case PollDone => s.pc.Polling? && (s.pc.left == 0 || s.sem == s.pc.left)
    case Resend => s.pc.Polling? && s.pc.left > 0 && s.sem != s.pc.left
    case ResendTo(t) => s.pc.Resending? && t in s.pc.todo && t in s.threads
    case Resent => s.pc.Resending? && s.pc.todo == {}
    case BarrierDone => s.pc == Barrier(0)
    case Lose(t) => s.retry && t in s.threads && s.threads[t].pending
    case Deliver(t) => t in s.threads && s.threads[t].pc == Running && s.threads[t].pending
    case Load(t) => t in s.threads && s.threads[t].pc == Delivered
    case Compare(t) => t in s.threads && s.threads[t].pc.Loaded?
    case Ack(t) => t in s.threads && s.threads[t].pc.Saved?
    case StoreLast(t) => t in s.threads && s.threads[t].pc.Acked?
    case WakeUp(t) => t in s.threads && s.threads[t].pc.Asleep?
    case AckAgain(t) => t in s.threads && s.threads[t].pc.AckRestart?
    case SetRestarted(t) => t in s.threads && s.threads[t].pc.MarkRestart?
    case Mutate(t) => t in s.threads && s.threads[t].pc == Running
    case ChangeLive(t, _) => s.pc == Idle && t in s.threads && s.threads[t].pc == Running
  }

  ghost function Set(s: State, t: Id, x: Thread): State {
    s.(threads := s.threads[t := x])
  }

  /** One turn of the loops that send signals: restart signals leave no trace, as any wakeup may be spurious. */
  ghost function Signalled(s: State, t: Id): State
    requires t in s.threads
  {
    if s.restarting then s else Set(s, t, s.threads[t].(pending := true))
  }

  ghost function Next(s: State, a: Action): State
    requires Allowed(s, a)
  {
    match a
    case StopWorld =>
      s.(stopCount := s.stopCount + 2, worldStopped := true, restarting := false,
         pc := Sending(s.threads.Keys, 0), acked := {}, consumed := 0)
    case StartWorld =>
      s.(worldStopped := false, restarting := true, pc := Sending(s.threads.Keys, 0), acked := {}, consumed := 0)
    case SendTo(t) =>
      if MustSignal(s, t, false) then Signalled(s, t).(pc := Sending(s.pc.todo - {t}, s.pc.sent + 1))
      else s.(pc := Sending(s.pc.todo - {t}, s.pc.sent))
    case Sent =>
      s.(pc := if s.retry then Timed(s.pc.sent) else if s.restarting then Idle else Barrier(s.pc.sent))
    case WaitOne =>
      s.(sem := s.sem - 1, consumed := s.consumed + 1,
         pc := if s.pc.Timed? then Timed(s.pc.left - 1) else Barrier(s.pc.left - 1))
    case TimeOut => s.(pc := Polling(s.pc.left))
    case PollDone => s.(pc := Barrier(s.pc.left))
    case Resend => s.(pc := Resending(s.pc.left, s.threads.Keys, 0))
    case ResendTo(t) =>
      if MustSignal(s, t, true) then Signalled(s, t).(pc := Resending(s.pc.left, s.pc.todo - {t}, s.pc.sent + 1))
      else s.(pc := Resending(s.pc.left, s.pc.todo - {t}, s.pc.sent))
    case Resent =>
      s.(pc := Polling(if s.pc.sent as int < s.pc.left - s.sem then s.sem + s.pc.sent else s.pc.left))
    case BarrierDone => s.(pc := if s.restarting then Idle else Stopped)
    case Lose(t) => Set(s, t, s.threads[t].(pending := false))
    case Deliver(t) => Set(s, t, s.threads[t].(pc := Delivered, pending := false))
    case Load(t) => Set(s, t, s.threads[t].(pc := Loaded(s.stopCount)))
    case Compare(t) =>
      var x := s.threads[t];
      if x.last == x.pc.c then Set(s, t, x.(pc := Running)) else Set(s, t, x.(pc := Saved(x.pc.c), sp := x.pc.c))
    case Ack(t) =>
      var x := s.threads[t];
      Set(s, t, x.(pc := Acked(x.pc.c))).(sem := s.sem + 1, acked := s.acked + {t})
    case StoreLast(t) =>
      var x := s.threads[t];
      Set(s, t, x.(pc := Asleep(x.pc.c), last := x.pc.c, restarted := false))
    case WakeUp(t) =>
      var x := s.threads[t];
      if s.worldStopped && s.stopCount == x.pc.c then s
      else Set(s, t, x.(pc := if s.retry then AckRestart(x.pc.c) else Running))
    case AckAgain(t) =>
      var x := s.threads[t];
      Set(s, t, x.(pc := MarkRestart(x.pc.c))).(sem := s.sem + 1, acked := s.acked + {t})
    case SetRestarted(t) =>
      var x := s.threads[t];
      Set(s, t, x.(pc := Running, last := x.pc.c, restarted := true))
    case Mutate(t) => s
    case ChangeLive(t, live) => Set(s, t, s.threads[t].(live := live))
  }

  // -----------------------------------------------------------------------------------
  // The invariant
  // -----------------------------------------------------------------------------------

  /** A suspend signal of an earlier stop is still on its way to the thread. */
  predicate IsStale(x: Thread) {
    x.pending || x.pc == Delivered
  }

  ghost predicate NoStale(s: State) {
    forall t :: t in s.threads ==> !IsStale(s.threads[t])
  }

  ghost predicate InStop(s: State) {
    s.pc != Idle && !s.restarting
  }

  /** The current stop has not reached this thread in any way. */
  predicate Untouched(c: nat, x: Thread) {
    !IsStale(x) && x.pc != Loaded(c) && !x.pc.Saved? && x.pc != Acked(c) && x.last != c
  }

  /** The handler runs, and has read the current stop count or is about to read it. */
  predicate OnItsWay(c: nat, x: Thread) {
    x.pc == Delivered || x.pc == Loaded(c) || x.pc == Saved(c)
  }

  /** No suspend signal anywhere near: how threads are between stops if signals are never resent. */
  predicate Quiet(x: Thread) {
    !x.pending && (x.pc == Running || x.pc.Acked? || x.pc.Asleep?)
  }

  /** What the fields of one thread say about each other, whatever the collector does. */
  ghost predicate ThreadOk(s: State, x: Thread) {
    var c := s.stopCount;
    && x.last <= c
    && (x.restarted ==> s.retry)
    && (s.retry && (x.pc.Acked? || x.pc.Asleep?) ==> x.pc.c == c && s.pc != Idle)
    && match x.pc
       case Running => true
       case Delivered => true
       case Loaded(k) => k <= c && (k < c ==> s.retry && x.last == k)
       case Saved(k) => k == c && x.sp == c && x.last < c && x.live && InStop(s)
       case Acked(k) => k <= c && x.sp == k && x.last < k && x.live
       case Asleep(k) => x.sp == k && x.last == k && !x.restarted && x.live
       case AckRestart(k) => k == x.last == c && !x.restarted && x.live && s.retry && s.restarting && s.pc != Idle
       case MarkRestart(k) => k == x.last && !x.restarted && s.retry
  }

  /** During a stop: whoever has acknowledged it sleeps or goes to sleep; the rest are on their way or untouched. */
  ghost predicate StopOk(s: State, t: Id, x: Thread) {
    var c := s.stopCount;
    && (t in s.acked <==> x.pc == Acked(c) || x.last == c)
    && (t in s.acked ==> Halted(s, x))
    && (!x.live || (s.pc.Sending? && t in s.pc.todo) ==> Untouched(c, x))
    && (!s.retry && x.pending ==>
          t !in s.acked && (x.pc == Running || (x.pc.Acked? && x.pc.c < c) || (x.pc.Asleep? && x.pc.c < c)))
    && (!s.retry && x.live && t !in s.acked && !(s.pc.Sending? && t in s.pc.todo) ==> x.pending || OnItsWay(c, x))
  }

  /** Stopped for good: the stack pointer is stored, and the thread waits for the world to restart. */
  ghost predicate Halted(s: State, x: Thread) {
    x.live && x.sp == s.stopCount && x.pc in {Acked(s.stopCount), Asleep(s.stopCount)}
  }

  /** During a restart. */
  ghost predicate RestartOk(s: State, t: Id, x: Thread) {
    var c := s.stopCount;
    if s.retry then
      && (t in s.acked <==> x.live && (x.pc == MarkRestart(c) || (x.last == c && x.restarted)))
      && (x.live ==> x.pc == Acked(c) || x.last == c)
      && (x.live && (x.pc == Running || x.pc == Delivered || x.pc.Loaded?) ==> x.restarted)
      && (!x.live ==> Untouched(c, x))
    else
      t !in s.acked && Quiet(x)
  }

  /** Between two collections. */
  ghost predicate IdleOk(s: State, x: Thread) {
    if s.retry then
      && (IsStale(x) || x.pc == Loaded(s.stopCount) ==> x.last == s.stopCount)
      && (x.pc == Running || x.pc == Delivered || x.pc.Loaded? || x.pc.MarkRestart?)
    else
      Quiet(x)
  }

  ghost predicate ThreadInv(s: State, t: Id, x: Thread) {
    && ThreadOk(s, x)
    && (InStop(s) ==> StopOk(s, t, x))
    && (s.pc != Idle && s.restarting ==> RestartOk(s, t, x))
    && (s.pc == Idle ==> IdleOk(s, x))
  }

  /** How the semaphore, the collector's counts and the set of threads that have posted fit together. */
  ghost predicate CountInv(s: State) {
    && (s.pc != Idle ==> s.acked <= Live(s) && s.sem + s.consumed == |s.acked|)
    && match s.pc
       case Idle => s.sem == 0
       case Sending(todo, sent) => todo <= s.threads.Keys && sent == |Live(s) - todo| && s.consumed == 0
       case Timed(left) => s.retry && left + s.consumed == |Live(s)|
       case Polling(left) => s.retry && left + s.consumed == |Live(s)|
       case Resending(left, todo, sent) =>
         && s.retry && left + s.consumed == |Live(s)| && todo <= s.threads.Keys
         && sent >= |Live(s) - s.acked - todo|
       case Barrier(left) =>
         && (s.retry || !s.restarting) && left + s.consumed == |Live(s)|
         && (s.retry ==> s.acked == Live(s))
       case Stopped => !s.restarting && s.sem == 0 && s.acked == Live(s)
  }

  ghost predicate Inv(s: State) {
    && (s.worldStopped <==> InStop(s))
    && (forall t :: t in s.threads ==> ThreadInv(s, t, s.threads[t]))
    && CountInv(s)
  }

  /** What a stopped world is: every live thread has stored its stack pointer for this stop, and does not run. */
  ghost predicate WorldIsStopped(s: State) {
    && s.sem == 0
    && forall t :: t in Live(s) ==> Halted(s, s.threads[t]) && !Allowed(s, Mutate(t))
  }

  lemma StoppedMeansStopped(s: State)
    requires Inv(s) && s.pc == Stopped
    ensures WorldIsStopped(s)
  {
    forall t | t in Live(s) ensures Halted(s, s.threads[t]) && !Allowed(s, Mutate(t)) {
      assert ThreadInv(s, t, s.threads[t]);
    }
  }

  // -----------------------------------------------------------------------------------
  // Every step keeps it
  // -----------------------------------------------------------------------------------

  /** Only one thread changes, and nothing but the semaphore and the acknowledgements besides. */
  ghost predicate OneThread(s: State, z: State, t: Id, x: Thread) {
    && t in s.threads
    && z.threads == s.threads[t := x] && x.live == s.threads[t].live
    && z.stopCount == s.stopCount && z.worldStopped == s.worldStopped && z.retry == s.retry
    && z.pc == s.pc && z.restarting == s.restarting
    && (z.acked == s.acked || (z.acked == s.acked + {t} && t !in s.acked))
  }

  lemma SameLive(s: State, z: State, t: Id)
    requires t in s.threads && t in z.threads && z.threads == s.threads[t := z.threads[t]]
    requires z.threads[t].live == s.threads[t].live
    ensures Live(z) == Live(s)
  {
    assert forall u :: u in s.threads <==> u in z.threads;
    assert forall u :: u in s.threads ==> s.threads[u].live == z.threads[u].live;
  }

  lemma OthersKeepInv(s: State, z: State, t: Id, x: Thread)
    requires Inv(s) && OneThread(s, z, t, x)
    ensures forall u :: u in z.threads && u != t ==> ThreadInv(z, u, z.threads[u])
    ensures Live(z) == Live(s)
  {
    SameLive(s, z, t);
    forall u | u in z.threads && u != t ensures ThreadInv(z, u, z.threads[u]) {
      assert ThreadInv(s, u, s.threads[u]);
    }
  }

  /** A step of thread `t` that posts nothing. */
  lemma SilentStep(s: State, z: State, t: Id, x: Thread)
    requires Inv(s) && OneThread(s, z, t, x)
    requires z.acked == s.acked && z.sem == s.sem && z.consumed == s.consumed
    requires ThreadInv(z, t, x)
    ensures Inv(z)
  {
    OthersKeepInv(s, z, t, x);
  }

  /** A step of thread `t` that posts. */
  lemma PostingStep(s: State, z: State, t: Id, x: Thread)
    requires Inv(s) && OneThread(s, z, t, x) && s.pc != Idle && s.pc != Stopped
    requires s.pc.Sending? && !s.restarting ==> t !in s.pc.todo
    requires z.acked == s.acked + {t} && t !in s.acked && z.sem == s.sem + 1 && z.consumed == s.consumed
    requires x.live && ThreadInv(z, t, x)
    ensures Inv(z)
  {
    OthersKeepInv(s, z, t, x);
    assert t in Live(s);
    match s.pc
    case Resending(left, todo, sent) =>
      SubsetCardinality(Live(z) - z.acked - todo, Live(s) - s.acked - todo);
    case _ =>
  }

  /** Signals get lost or delivered, and the handler looks at the stop count. */
  lemma ThreadStepKeepsInv(s: State, a: Action)
    requires Inv(s) && Allowed(s, a)
    requires a.Lose? || a.Deliver? || a.Load? || a.Compare?
    ensures Inv(Next(s, a))
  {
    hide CountInv;
    var z := Next(s, a);
    assert ThreadInv(s, a.t, s.threads[a.t]);
    SilentStep(s, z, a.t, z.threads[a.t]);
  }

  lemma SleepStepKeepsInv(s: State, a: Action)
    requires Inv(s) && Allowed(s, a)
    requires a.StoreLast? || a.WakeUp? || a.SetRestarted? || a.Mutate?
    ensures Inv(Next(s, a))
  {
    hide CountInv;
    var z := Next(s, a);
    if z != s {
      assert ThreadInv(s, a.t, s.threads[a.t]);
      SilentStep(s, z, a.t, z.threads[a.t]);
    }
  }

  /** A thread posts only once per stop. */
  lemma AckKeepsInv(s: State, a: Action)
    requires Inv(s) && Allowed(s, a) && a.Ack?
    ensures a.t !in s.acked
    ensures Inv(Next(s, a))
  {
    var z := Next(s, a);
    assert ThreadInv(s, a.t, s.threads[a.t]);
    assert s.pc != Stopped by {
      assert a.t in Live(s);
    }
    hide CountInv;
    PostingStep(s, z, a.t, z.threads[a.t]);
  }

  /** And once per restart. */
  lemma AckAgainKeepsInv(s: State, a: Action)
    requires Inv(s) && Allowed(s, a) && a.AckAgain?
    ensures a.t !in s.acked
    ensures Inv(Next(s, a))
  {
    var z := Next(s, a);
    assert ThreadInv(s, a.t, s.threads[a.t]);
    PostingStep(s, z, a.t, z.threads[a.t]);
  }

  lemma ChangeLiveKeepsInv(s: State, a: Action)
    requires Inv(s) && Allowed(s, a) && a.ChangeLive?
    ensures Inv(Next(s, a))
  {
    var z := Next(s, a);
    forall u | u in z.threads ensures ThreadInv(z, u, z.threads[u]) {
      assert ThreadInv(s, u, s.threads[u]);
    }
  }

  /** The collector starts to stop or to restart the world. */
  lemma BeginKeepsInv(s: State, a: Action)
    requires Inv(s) && Allowed(s, a) && ((a == StopWorld && NoStale(s)) || a == StartWorld)
    ensures Inv(Next(s, a))
  {
    var z := Next(s, a);
    forall u | u in z.threads ensures ThreadInv(z, u, z.threads[u]) {
      assert ThreadInv(s, u, s.threads[u]);
      assert u in Live(s) <==> s.threads[u].live;
    }
    assert Live(z) - z.threads.Keys == {};
  }

  /** The collector's own steps: no thread changes. */
  ghost predicate OnlyCollector(s: State, z: State) {
    && z.threads == s.threads && z.stopCount == s.stopCount && z.worldStopped == s.worldStopped
    && z.retry == s.retry && z.restarting == s.restarting && z.acked == s.acked
    && s.pc != Idle && z.pc != Idle && (z.pc.Sending? ==> s.pc.Sending? && z.pc.todo <= s.pc.todo)
  }

  lemma CollectorStep(s: State, z: State)
    requires Inv(s) && OnlyCollector(s, z)
    requires s.pc.Sending? && !z.pc.Sending? ==> s.pc.todo == {}
    requires s.pc.Sending? == z.pc.Sending? ==> s.pc.Sending? ==> s.pc.todo == z.pc.todo
    requires CountInv(z)
    ensures Inv(z)
  {
    forall u | u in z.threads ensures ThreadInv(z, u, z.threads[u]) {
      assert ThreadInv(s, u, s.threads[u]);
    }
  }

  /** The collector counts down, polls or gives up waiting: no thread changes. */
  lemma WaitKeepsInv(s: State, a: Action)
    requires Inv(s) && Allowed(s, a) && (a.WaitOne? || a.TimeOut? || a.PollDone? || a.Resend?)
    ensures Inv(Next(s, a))
  {
    if a == PollDone {
      SubsetCardinality(s.acked, Live(s));
      SameCardinality(s.acked, Live(s));
    } else if a == Resend {
      SubsetCardinality(Live(s) - s.acked - s.threads.Keys, {});
    }
    CollectorStep(s, Next(s, a));
  }

  /** Without retries a restart is over once all threads have been sent their signals. */
  lemma RestartedThread(s: State, z: State, t: Id)
    requires t in s.threads && ThreadInv(s, t, s.threads[t]) && s.pc.Sending? && s.restarting && !s.retry
    requires z == s.(pc := Idle)
    ensures ThreadInv(z, t, s.threads[t]) && t !in s.acked
  {
  }

  lemma SentEndsRestart(s: State)
    requires Inv(s) && s.pc.Sending? && s.pc.todo == {} && s.restarting && !s.retry
    ensures Inv(s.(pc := Idle))
  {
    hide ThreadInv;
    var z := s.(pc := Idle);
    forall u | u in z.threads ensures ThreadInv(z, u, z.threads[u]) && u !in s.acked {
      RestartedThread(s, z, u);
    }
    assert s.acked == {};
  }

  /** Every live thread has been sent its signal, or has been seen to be done with it. */
  lemma SentKeepsInv(s: State, a: Action)
    requires Inv(s) && Allowed(s, a) && a == Sent
    ensures Inv(Next(s, a))
  {
    hide ThreadInv;
    var z := Next(s, a);
    if z.pc == Idle {
      SentEndsRestart(s);
    } else {
      assert Live(s) - s.pc.todo == Live(s);
      CollectorStep(s, z);
    }
  }

  /** Resending never finds fewer threads than are missing, so the warning about lost threads is never given. */
  lemma ResentKeepsInv(s: State, a: Action)
    requires Inv(s) && Allowed(s, a) && a == Resent
    ensures Next(s, a).pc == Polling(s.pc.left)
    ensures Inv(Next(s, a))
  {
    assert Live(s) - s.acked - s.pc.todo == Live(s) - s.acked;
    CardinalityOfDifference(Live(s), s.acked);
    CollectorStep(s, Next(s, a));
  }

  lemma BarrierDoneKeepsInv(s: State, a: Action)
    requires Inv(s) && Allowed(s, a) && a == BarrierDone
    ensures Inv(Next(s, a))
  {
    var z := Next(s, a);
    SubsetCardinality(s.acked, Live(s));
    SameCardinality(s.acked, Live(s));
    forall u | u in z.threads ensures ThreadInv(z, u, z.threads[u]) {
      assert ThreadInv(s, u, s.threads[u]);
      assert u in Live(s) <==> s.threads[u].live;
    }
  }

  /** The live threads that `GC_suspend_all` or `GC_restart_all` has dealt with grow by one. */
  lemma OneFewer(live: set<Id>, todo: set<Id>, t: Id)
    requires t in todo
    ensures |live - (todo - {t})| == |live - todo| + if t in live then 1 else 0
  {
    if t in live {
      assert live - (todo - {t}) == (live - todo) + {t};
    } else {
      assert live - (todo - {t}) == live - todo;
    }
  }

  ghost predicate Sends(s: State, a: Action) {
    Allowed(s, a) && (a.SendTo? || a.ResendTo?)
  }

  ghost predicate ThreadsOk(s: State) {
    forall t :: t in s.threads ==> ThreadInv(s, t, s.threads[t])
  }

  ghost predicate OthersOk(s: State, t: Id) {
    forall u :: u in s.threads && u != t ==> ThreadInv(s, u, s.threads[u])
  }

  lemma SendKeepsOthers(s: State, a: Action)
    requires Inv(s) && Sends(s, a)
    ensures Live(Next(s, a)) == Live(s) && OthersOk(Next(s, a), a.t)
  {
    hide CountInv, ThreadInv;
    var z := Next(s, a);
    SameLive(s, z, a.t);
    forall u | u in z.threads && u != a.t ensures ThreadInv(z, u, z.threads[u]) {
      SendLeavesAlone(s, z, a.t, u, s.threads[u]);
    }
  }

  /** Whether a thread is as it has to be does not depend on signals sent to others. */
  lemma SendLeavesAlone(s: State, z: State, t: Id, u: Id, x: Thread)
    requires ThreadInv(s, u, x) && u != t
    requires z.stopCount == s.stopCount && z.worldStopped == s.worldStopped && z.retry == s.retry
    requires z.restarting == s.restarting && z.acked == s.acked
    requires if s.pc.Sending? then z.pc.Sending? && z.pc.todo == s.pc.todo - {t} else s.pc.Resending? && z.pc.Resending?
    ensures ThreadInv(z, u, x)
  {
  }

  lemma SendReaches(s: State, a: Action)
    requires Inv(s) && Sends(s, a)
    ensures a.SendTo? ==> (MustSignal(s, a.t, false) <==> a.t in Live(s))
    ensures a.ResendTo? && a.t in Live(s) - s.acked ==> MustSignal(s, a.t, true)
    ensures a.t in Next(s, a).threads && ThreadInv(Next(s, a), a.t, Next(s, a).threads[a.t])
  {
    assert a.ResendTo? ==> s.retry;
    assert ThreadInv(s, a.t, s.threads[a.t]);
  }

  lemma SendKeepsThreads(s: State, a: Action)
    requires Inv(s) && Sends(s, a)
    ensures ThreadsOk(Next(s, a))
  {
    hide ThreadInv, CountInv;
    SendKeepsOthers(s, a);
    SendReaches(s, a);
  }

  lemma SendKeepsInv(s: State, a: Action)
    requires Inv(s) && Allowed(s, a) && a.SendTo?
    ensures Inv(Next(s, a))
  {
    hide ThreadInv, MustSignal, Live;
    SendKeepsThreads(s, a);
    SendKeepsOthers(s, a);
    SendReaches(s, a);
    OneFewer(Live(s), s.pc.todo, a.t);
  }

  lemma ResendKeepsInv(s: State, a: Action)
    requires Inv(s) && Allowed(s, a) && a.ResendTo?
    ensures Inv(Next(s, a))
  {
    hide ThreadInv, MustSignal, Live;
    SendKeepsThreads(s, a);
    SendKeepsOthers(s, a);
    SendReaches(s, a);
    OneFewer(Live(s) - s.acked, s.pc.todo, a.t);
  }

  lemma StepKeepsInv(s: State, a: Action)
    requires Inv(s) && Allowed(s, a) && (a == StopWorld ==> NoStale(s))
    ensures Inv(Next(s, a))
  {
    hide Inv, Next, Allowed;
    match a
    case StopWorld => BeginKeepsInv(s, a);
    case StartWorld => BeginKeepsInv(s, a);
    case SendTo(_) => SendKeepsInv(s, a);
    case Sent => SentKeepsInv(s, a);
    case WaitOne => WaitKeepsInv(s, a);
    case TimeOut => WaitKeepsInv(s, a);
    case PollDone => WaitKeepsInv(s, a);
    case Resend => WaitKeepsInv(s, a);
    case ResendTo(_) => ResendKeepsInv(s, a);
    case Resent => ResentKeepsInv(s, a);
    case BarrierDone => BarrierDoneKeepsInv(s, a);
    case Lose(_) => ThreadStepKeepsInv(s, a);
    case Deliver(_) => ThreadStepKeepsInv(s, a);
    case Load(_) => ThreadStepKeepsInv(s, a);
    case Compare(_) => ThreadStepKeepsInv(s, a);
    case Ack(_) => AckKeepsInv(s, a);
    case StoreLast(_) => SleepStepKeepsInv(s, a);
    case WakeUp(_) => SleepStepKeepsInv(s, a);
    case AckAgain(_) => AckAgainKeepsInv(s, a);
    case SetRestarted(_) => SleepStepKeepsInv(s, a);
    case Mutate(_) => SleepStepKeepsInv(s, a);
    case ChangeLive(_, _) => ChangeLiveKeepsInv(s, a);
  }

  // -----------------------------------------------------------------------------------
  // Whole runs
  // -----------------------------------------------------------------------------------

  ghost predicate Leads(s: State, run: seq<Action>, z: State)
    decreases |run|
  {
    if run == [] then s == z
    else Allowed(s, run[0]) && Leads(Next(s, run[0]), run[1..], z)
  }

  /** Whenever the run starts to stop the world, no suspend signal of an earlier stop is on its way. */
  ghost predicate Timely(s: State, run: seq<Action>)
    decreases |run|
  {
    run != [] && Allowed(s, run[0]) ==>
      (run[0] == StopWorld ==> NoStale(s)) && Timely(Next(s, run[0]), run[1..])
  }

  lemma {:induction false} RunKeepsInv(s: State, run: seq<Action>, z: State)
    requires Inv(s) && Leads(s, run, z) && Timely(s, run)
    ensures Inv(z)
    ensures z.pc == Stopped ==> WorldIsStopped(z)
    decreases |run|
  {
    hide Inv, Next, Allowed, NoStale, WorldIsStopped;
    if run == [] {
      if z.pc == Stopped {
        StoppedMeansStopped(z);
      }
    } else {
      StepKeepsInv(s, run[0]);
      RunKeepsInv(Next(s, run[0]), run[1..], z);
    }
  }

  /** If signals are not resent, none is ever stale. */
  lemma WithoutRetriesNoneIsStale(s: State)
    requires Inv(s) && s.pc == Idle && !s.retry
    ensures NoStale(s)
  {
    assert forall t :: t in s.threads ==> ThreadInv(s, t, s.threads[t]);
  }

  lemma {:induction false} WithoutRetriesAllRunsAreTimely(s: State, run: seq<Action>, z: State)
    requires Inv(s) && Leads(s, run, z) && !s.retry
    ensures Timely(s, run)
    decreases |run|
  {
    hide Inv, NoStale;
    if run != [] {
      if run[0] == StopWorld {
        WithoutRetriesNoneIsStale(s);
      }
      StepKeepsInv(s, run[0]);
      WithoutRetriesAllRunsAreTimely(Next(s, run[0]), run[1..], z);
    }
  }

  /** Without retries, over any run: a stopped world is stopped. */
  lemma WithoutRetries(s: State, run: seq<Action>, z: State)
    requires Inv(s) && Leads(s, run, z) && !s.retry
    ensures Inv(z)
    ensures z.pc == Stopped ==> WorldIsStopped(z)
  {
    WithoutRetriesAllRunsAreTimely(s, run, z);
    RunKeepsInv(s, run, z);
  }

  lemma {:induction false} LeadsOn(s: State, run: seq<Action>, m: State, rest: seq<Action>, z: State)
    requires Leads(s, run, m) && Leads(m, rest, z)
    ensures Leads(s, run + rest, z)
    decreases |run|
  {
    hide Allowed, Next;
    if run == [] {
      assert run + rest == rest;
    } else {
      LeadsOn(Next(s, run[0]), run[1..], m, rest, z);
      assert (run + rest)[1..] == run[1..] + rest;
    }
  }

  // -----------------------------------------------------------------------------------
  // Threads that have been signalled do stop
  // -----------------------------------------------------------------------------------

  /** A thread that will acknowledge the stop by its own steps alone. */
  ghost predicate Summoned(s: State, x: Thread) {
    var c := s.stopCount;
    && s.worldStopped && x.last < c
    && match x.pc
       case Running => x.pending
       case Delivered => true
       case Loaded(k) => k == c || (k == x.last && x.pending)
       case Saved(k) => k == c
       case Acked(k) => k == c || (x.pending && !s.retry && k < c)
       case Asleep(k) => k == x.last && x.pending && !s.retry
       case AckRestart(_) => false
       case MarkRestart(k) => k == x.last && x.pending
  }

  /** The only step a summoned thread can take by itself. */
  function NextStep(t: Id, x: Thread): Action {
    match x.pc
    case Running => Deliver(t)
    case Delivered => Load(t)
    case Loaded(_) => Compare(t)
    case Saved(_) => Ack(t)
    case Acked(_) => StoreLast(t)
    case Asleep(_) => WakeUp(t)
    case AckRestart(_) => AckAgain(t)
    case MarkRestart(_) => SetRestarted(t)
  }

  /** How many steps of its own a summoned thread is away from sleeping. */
  function Distance(c: nat, x: Thread): nat {
    match x.pc
    case Running => 5
    case Delivered => 4
    case Loaded(k) => if k == c then 3 else 6
    case Saved(_) => 2
    case Acked(k) => if k == c then 1 else 7
    case Asleep(k) => if k == c then 0 else 6
    case AckRestart(_) => 8
    case MarkRestart(_) => 6
  }

  lemma OwnStep(s: State, t: Id)
    requires t in s.threads && Summoned(s, s.threads[t])
    ensures Allowed(s, NextStep(t, s.threads[t]))
    ensures var z := Next(s, NextStep(t, s.threads[t]));
      && t in z.threads
      && z == s.(threads := s.threads[t := z.threads[t]], sem := z.sem, acked := z.acked)
      && z.sem == s.sem + One(s.threads[t].pc.Saved?)
      && z.threads[t].live == s.threads[t].live
      && Distance(s.stopCount, z.threads[t]) == Distance(s.stopCount, s.threads[t]) - 1
      && (Summoned(z, z.threads[t]) ||
          (z.threads[t].pc == Asleep(s.stopCount) && z.threads[t].last == s.stopCount && !z.threads[t].restarted))
  {
    OwnStepOnlyOwn(s, t);
    OwnStepGoesOn(s, t);
    hide Next, Allowed, Summoned, Distance;
  }

  lemma OwnStepOnlyOwn(s: State, t: Id)
    requires t in s.threads && Summoned(s, s.threads[t])
    ensures Allowed(s, NextStep(t, s.threads[t]))
    ensures var z := Next(s, NextStep(t, s.threads[t]));
      && t in z.threads
      && z == s.(threads := s.threads[t := z.threads[t]], sem := z.sem, acked := z.acked)
      && z.sem == s.sem + One(s.threads[t].pc.Saved?)
      && z.threads[t].live == s.threads[t].live
  {
  }

  lemma OwnStepGoesOn(s: State, t: Id)
    requires t in s.threads && Summoned(s, s.threads[t]) && Allowed(s, NextStep(t, s.threads[t]))
    requires t in Next(s, NextStep(t, s.threads[t])).threads
    ensures var z := Next(s, NextStep(t, s.threads[t]));
      && Distance(s.stopCount, z.threads[t]) == Distance(s.stopCount, s.threads[t]) - 1
      && (Summoned(z, z.threads[t]) ||
          (z.threads[t].pc == Asleep(s.stopCount) && z.threads[t].last == s.stopCount && !z.threads[t].restarted))
  {
  }

  function One(b: bool): nat { if b then 1 else 0 }

  /**
   The collector waits for an acknowledgement only while some live thread is on its way to give
   one: no signal is overlooked, and the wait ends if threads get to run. With retries, the last
   wait never blocks at all.
   */
  lemma WaitsForSomeone(s: State)
    requires Inv(s) && s.pc.Barrier? && s.pc.left > 0 && s.sem == 0
    ensures !s.retry
    ensures exists t :: t in Live(s) && Summoned(s, s.threads[t])
  {
    SubsetCardinality(s.acked, Live(s));
    assert s.acked != Live(s);
    var t :| t in Live(s) && t !in s.acked;
    assert ThreadInv(s, t, s.threads[t]);
    assert Summoned(s, s.threads[t]);
  }

  // -----------------------------------------------------------------------------------
  // A stale signal breaks the stop
  // -----------------------------------------------------------------------------------

  /** One stop: the run does not go on to restart the world. */
  ghost predicate StopRun(s: State, run: seq<Action>, z: State) {
    Leads(s, run, z) && StartWorld !in run
  }

  lemma StopRunOn(s: State, run: seq<Action>, m: State, rest: seq<Action>, z: State)
    requires StopRun(s, run, m) && StopRun(m, rest, z)
    ensures StopRun(s, run + rest, z)
  {
    LeadsOn(s, run, m, rest, z);
  }

  lemma Then(s: State, run: seq<Action>, m: State, a: Action)
    requires StopRun(s, run, m) && Allowed(m, a) && a != StartWorld
    ensures StopRun(s, run + [a], Next(m, a))
  {
    assert Leads(Next(m, a), [], Next(m, a));
    StopRunOn(s, run, m, [a], Next(m, a));
  }

  /** The live threads that have not stored the current stop count. */
  ghost function Missing(s: State): set<Id> {
    set t | t in s.threads && s.threads[t].live && s.threads[t].last != s.stopCount
  }

  ghost predicate AllSummoned(s: State, ts: set<Id>) {
    forall t :: t in ts && t in s.threads ==> Summoned(s, s.threads[t])
  }

  /** A summoned thread, left alone, acknowledges the stop and goes to sleep. */
  lemma {:induction false} DriveToSleep(s: State, t: Id) returns (run: seq<Action>, z: State)
    requires t in s.threads && Summoned(s, s.threads[t])
    ensures StopRun(s, run, z) && StopWorld !in run
    ensures t in z.threads && z == s.(threads := s.threads[t := z.threads[t]], sem := z.sem, acked := z.acked)
    ensures z.threads[t].live == s.threads[t].live
    ensures z.threads[t].last == s.stopCount && !z.threads[t].restarted
    ensures z.sem == s.sem + One(Distance(s.stopCount, s.threads[t]) >= 2)
    decreases Distance(s.stopCount, s.threads[t])
  {
    hide Allowed, Next, Summoned;
    var a := NextStep(t, s.threads[t]);
    OwnStep(s, t);
    var m := Next(s, a);
    assert StopRun(s, [], s);
    Then(s, [], s, a);
    run, z := [] + [a], m;
    if Summoned(m, m.threads[t]) {
      var rest;
      rest, z := DriveToSleep(m, t);
      StopRunOn(s, [] + [a], m, rest, z);
      run := [] + [a] + rest;
    }
  }

  /** Where a thread can be when a stop begins. */
  predicate Fresh(c: nat, x: Thread) {
    && x.last < c
    && (x.pc == Running || x.pc == Delivered || x.pc == Loaded(x.last) || x.pc == MarkRestart(x.last))
  }

  ghost predicate FreshOrDone(s: State) {
    forall t :: t in s.threads ==>
      var x := s.threads[t]; Fresh(s.stopCount, x) || (x.last == s.stopCount && !x.restarted)
  }

  /** `GC_suspend_all` is at work, and has counted the threads it has signalled. */
  ghost predicate Signalling(s: State) {
    && InStop(s) && s.retry && s.worldStopped && FreshOrDone(s)
    && s.pc.Sending? && s.pc.todo <= s.threads.Keys
    && s.pc.sent == |Missing(s) - s.pc.todo| && AllSummoned(s, Missing(s) - s.pc.todo)
  }

  lemma SignalOne(s: State, t: Id)
    requires Signalling(s) && t in s.pc.todo
    ensures Allowed(s, SendTo(t))
    ensures var z := Next(s, SendTo(t));
      && Signalling(z) && z == s.(threads := z.threads, pc := z.pc)
      && z.threads.Keys == s.threads.Keys && z.pc.todo == s.pc.todo - {t}
  {
    var z := Next(s, SendTo(t));
    OneFewer(Missing(s), s.pc.todo, t);
    assert Missing(z) == Missing(s);
  }

  /** `GC_suspend_all` signals whoever has not stored the stop count yet, and counts only those. */
  lemma {:induction false} SignalAll(s: State) returns (run: seq<Action>, z: State)
    requires Signalling(s)
    ensures StopRun(s, run, z)
    ensures z == s.(threads := z.threads, pc := Timed(|Missing(z)|))
    ensures AllSummoned(z, Missing(z)) && FreshOrDone(z)
    decreases |s.pc.todo|
  {
    assert StopRun(s, [], s) by {
      Nothing(s);
    }
    if s.pc.todo == {} {
      assert Missing(s) - s.pc.todo == Missing(s);
      Then(s, [], s, Sent);
      run, z := [] + [Sent], Next(s, Sent);
      assert Missing(z) == Missing(s);
    } else {
      hide FreshOrDone, Missing, AllSummoned, Next, Allowed;
      var t :| t in s.pc.todo;
      SignalOne(s, t);
      var m := Next(s, SendTo(t));
      Then(s, [], s, SendTo(t));
      var rest;
      rest, z := SignalAll(m);
      StopRunOn(s, [] + [SendTo(t)], m, rest, z);
      run := [] + [SendTo(t)] + rest;
    }
  }

  lemma Nothing(s: State)
    ensures StopRun(s, [], s)
  {
  }

  /** The collector counts one acknowledgement for each signal, and so waits no more. */
  lemma {:induction false} CountAll(s: State) returns (run: seq<Action>, z: State)
    requires s.pc == Timed(|Missing(s)|) && AllSummoned(s, Missing(s)) && FreshOrDone(s)
    ensures StopRun(s, run, z)
    ensures z.pc == Timed(0) && z.sem == s.sem && z.restarting == s.restarting
    decreases |Missing(s)|
  {
    assert StopRun(s, [], s);
    if Missing(s) == {} {
      run, z := [], s;
    } else {
      var t :| t in Missing(s);
      var m;
      run, m := DriveToSleep(s, t);
      assert Missing(m) == Missing(s) - {t};
      Then(s, run, m, WaitOne);
      var n := Next(m, WaitOne);
      assert Missing(n) == Missing(m);
      var rest;
      rest, z := CountAll(n);
      StopRunOn(s, run + [WaitOne], n, rest, z);
      run := run + [WaitOne] + rest;
    }
  }

  lemma StopWaiting(s: State) returns (run: seq<Action>, z: State)
    requires s.pc == Timed(0) && !s.restarting
    ensures StopRun(s, run, z)
    ensures z == s.(pc := Stopped)
  {
    Nothing(s);
    Then(s, [], s, TimeOut);
    var p := Next(s, TimeOut);
    Then(s, [] + [TimeOut], p, PollDone);
    var q := Next(p, PollDone);
    Then(s, [] + [TimeOut] + [PollDone], q, BarrierDone);
    run, z := [] + [TimeOut] + [PollDone] + [BarrierDone], Next(q, BarrierDone);
  }

  lemma StaleThreadPostsFirst(s: State) returns (run: seq<Action>, z: State)
    requires Inv(s) && s.pc == Idle && !NoStale(s)
    ensures StopRun(Next(s, StopWorld), run, z)
    ensures Signalling(z) && z.sem == 1
  {
    var t :| t in s.threads && IsStale(s.threads[t]);
    assert ThreadInv(s, t, s.threads[t]);
    StopStartsFresh(s);
    run, z := DriveToSleep(Next(s, StopWorld), t);
    assert Missing(z) - z.pc.todo == {};
  }

  /** With retries, a stop that begins while a suspend signal is still on its way can go wrong. */
  lemma StaleSignalLeavesAPost(s: State) returns (run: seq<Action>, z: State)
    requires Inv(s) && s.pc == Idle && !NoStale(s)
    ensures StopRun(Next(s, StopWorld), run, z)
    ensures z.pc == Stopped && z.sem == 1
  {
    var s0 := Next(s, StopWorld);
    var driven, m := StaleThreadPostsFirst(s);
    hide *;
    var signalled, n := SignalAll(m);
    StopRunOn(s0, driven, m, signalled, n);
    var counted, o := CountAll(n);
    StopRunOn(s0, driven + signalled, n, counted, o);
    var last;
    last, z := StopWaiting(o);
    run := driven + signalled + counted + last;
    StopRunOn(s0, driven + signalled + counted, o, last, z);
  }

  lemma StopStartsFresh(s: State)
    requires Inv(s) && s.pc == Idle && s.retry
    ensures var z := Next(s, StopWorld); forall t :: t in z.threads ==> Fresh(z.stopCount, z.threads[t])
  {
    forall t | t in s.threads ensures Fresh(s.stopCount + 2, s.threads[t]) {
      assert ThreadInv(s, t, s.threads[t]);
    }
  }

  lemma {:induction false} StopRunKeepsInv(s: State, run: seq<Action>, z: State)
    requires Inv(s) && InStop(s) && StopRun(s, run, z)
    ensures Inv(z)
    decreases |run|
  {
    hide Inv;
    if run != [] {
      StepKeepsInv(s, run[0]);
      StopRunKeepsInv(Next(s, run[0]), run[1..], z);
    }
  }

  /**
   Exactly when a stop that begins in state `s` cannot go wrong: whatever the threads do and
   whichever signals get lost, the world it reports as stopped is stopped and the semaphore is
   back to zero if and only if no suspend signal of an earlier stop is still on its way.
   */
  lemma StopIsSoundExactlyWithoutStaleSignals(s: State)
    requires Inv(s) && s.pc == Idle
    ensures NoStale(s) <==>
      forall run, z :: StopRun(Next(s, StopWorld), run, z) && z.pc == Stopped ==> WorldIsStopped(z)
  {
    if NoStale(s) {
      BeginKeepsInv(s, StopWorld);
      forall run, z | StopRun(Next(s, StopWorld), run, z) && z.pc == Stopped ensures WorldIsStopped(z) {
        StopRunKeepsInv(Next(s, StopWorld), run, z);
        StoppedMeansStopped(z);
      }
    } else {
      var run, z := StaleSignalLeavesAPost(s);
      assert !WorldIsStopped(z);
    }
  }

  // -----------------------------------------------------------------------------------
  // Every stop and every restart can be completed
  // -----------------------------------------------------------------------------------

  /** No stop and no restart begins in the run. */
  ghost predicate Meanwhile(s: State, run: seq<Action>, z: State) {
    Leads(s, run, z) && StopWorld !in run && StartWorld !in run
  }

  lemma MeanwhileOn(s: State, run: seq<Action>, m: State, rest: seq<Action>, z: State)
    requires Meanwhile(s, run, m) && Meanwhile(m, rest, z)
    ensures Meanwhile(s, run + rest, z)
  {
    LeadsOn(s, run, m, rest, z);
  }

  lemma NoMove(s: State)
    ensures Meanwhile(s, [], s)
  {
  }

  lemma OneMove(s: State, a: Action)
    requires Allowed(s, a) && a != StopWorld && a != StartWorld
    ensures Meanwhile(s, [a], Next(s, a))
  {
    assert Leads(Next(s, a), [], Next(s, a));
    assert [a][1..] == [];
  }

  /** How many steps of its own a thread is at most away from the client's code, while the world runs. */
  function WayBack(x: Thread): nat {
    match x.pc
    case Running => 0
    case Delivered => 2
    case Loaded(_) => 1
    case Saved(_) => 5
    case Acked(_) => 4
    case Asleep(_) => 3
    case AckRestart(_) => 2
    case MarkRestart(_) => 1
  }

  /** The thread has yet to acknowledge the restart. */
  predicate WillPost(s: State, x: Thread) {
    s.retry && (x.pc.Acked? || x.pc.Asleep? || x.pc.AckRestart?)
  }

  function StepsOf(t: Id): set<Action> {
    {Load(t), Compare(t), StoreLast(t), WakeUp(t), AckAgain(t), SetRestarted(t)}
  }

  lemma StepBack(s: State, t: Id)
    requires Inv(s) && !s.worldStopped && t in s.threads && s.threads[t].pc != Running
    ensures var a := NextStep(t, s.threads[t]); Allowed(s, a) && a in StepsOf(t) && a != StopWorld && a != StartWorld
    ensures var z := Next(s, NextStep(t, s.threads[t]));
      && Inv(z) && t in z.threads && z == s.(threads := s.threads[t := z.threads[t]], sem := z.sem, acked := z.acked)
      && z.threads[t].live == s.threads[t].live && WayBack(z.threads[t]) < WayBack(s.threads[t])
      && z.sem + One(WillPost(z, z.threads[t])) == s.sem + One(WillPost(s, s.threads[t]))
  {
    hide Inv, Next, Allowed, NextStep, StepsOf, WayBack;
    WayIsFree(s, t);
    StepsBack(s, t);
    StepKeepsInv(s, NextStep(t, s.threads[t]));
  }

  /** Nothing keeps a thread from going back to the client's code. */
  ghost predicate OnTheWay(s: State, x: Thread) {
    match x.pc
    case Delivered => x.last == s.stopCount
    case Loaded(k) => x.last == k
    case Saved(_) => false
    case _ => true
  }

  lemma WayIsFree(s: State, t: Id)
    requires Inv(s) && !s.worldStopped && t in s.threads
    ensures OnTheWay(s, s.threads[t])
    ensures s.threads[t].pc.AckRestart? ==> s.retry
  {
    hide CountInv, Live;
    assert ThreadInv(s, t, s.threads[t]);
  }

  lemma StepsBack(s: State, t: Id)
    requires !s.worldStopped && t in s.threads && s.threads[t].pc != Running && OnTheWay(s, s.threads[t])
    requires s.threads[t].pc.AckRestart? ==> s.retry
    ensures var a := NextStep(t, s.threads[t]); Allowed(s, a) && a in StepsOf(t) && a != StopWorld && a != StartWorld
    ensures var z := Next(s, NextStep(t, s.threads[t]));
      && t in z.threads && z == s.(threads := s.threads[t := z.threads[t]], sem := z.sem, acked := z.acked)
      && z.threads[t].live == s.threads[t].live && WayBack(z.threads[t]) < WayBack(s.threads[t])
      && z.sem + One(WillPost(z, z.threads[t])) == s.sem + One(WillPost(s, s.threads[t]))
  {
    var z := Next(s, NextStep(t, s.threads[t]));
    match s.threads[t].pc
    case Delivered => assert NextStep(t, s.threads[t]) == Load(t);
    case Loaded(_) => assert NextStep(t, s.threads[t]) == Compare(t);
    case Acked(_) => assert NextStep(t, s.threads[t]) == StoreLast(t);
    case Asleep(_) => assert NextStep(t, s.threads[t]) == WakeUp(t);
    case AckRestart(_) => assert NextStep(t, s.threads[t]) == AckAgain(t);
    case MarkRestart(_) => assert NextStep(t, s.threads[t]) == SetRestarted(t);
  }

  /**
   Whenever the world is not stopped, every thread gets back to the client's code by its own steps
   alone. It acknowledges the restart once if signals are retried, and never otherwise.
   */
  lemma {:induction false} DriveToRun(s: State, t: Id) returns (run: seq<Action>, z: State)
    requires Inv(s) && !s.worldStopped && t in s.threads
    ensures Meanwhile(s, run, z) && Inv(z) && forall a :: a in run ==> a in StepsOf(t)
    ensures t in z.threads && z == s.(threads := s.threads[t := z.threads[t]], sem := z.sem, acked := z.acked)
    ensures z.threads[t].live == s.threads[t].live && Allowed(z, Mutate(t))
    ensures z.sem == s.sem + One(WillPost(s, s.threads[t]))
    decreases WayBack(s.threads[t])
  {
    hide Inv, Next, Meanwhile, NextStep, StepsOf, WayBack;
    if s.threads[t].pc == Running {
      NoMove(s);
      run, z := [], s;
    } else {
      var a := NextStep(t, s.threads[t]);
      StepBack(s, t);
      hide Allowed;
      var m := Next(s, a);
      OneMove(s, a);
      var rest;
      rest, z := DriveToRun(m, t);
      run := [a] + rest;
      MeanwhileOn(s, [a], m, rest, z);
    }
  }

  ghost predicate AllRun(s: State, but: set<Id>) {
    forall t :: t in s.threads && t !in but ==> s.threads[t].pc == Running
  }

  lemma {:induction false} DriveAllToRun(s: State, todo: set<Id>) returns (run: seq<Action>, z: State)
    requires Inv(s) && !s.worldStopped && todo <= s.threads.Keys && AllRun(s, todo)
    ensures Meanwhile(s, run, z) && Inv(z) && AllRun(z, {})
    ensures z == s.(threads := z.threads, sem := z.sem, acked := z.acked)
    decreases todo
  {
    hide Inv, Meanwhile, StepsOf, WillPost;
    if todo == {} {
      NoMove(s);
      run, z := [], s;
    } else {
      var t :| t in todo;
      var m, rest;
      run, m := DriveToRun(s, t);
      rest, z := DriveAllToRun(m, todo - {t});
      MeanwhileOn(s, run, m, rest, z);
      run := run + rest;
    }
  }

  /** Nothing is left to do but for the collector. */
  ghost predicate Settled(s: State) {
    && (s.retry || !s.restarting ==> s.acked == Live(s))
    && (!s.restarting ==> forall t :: t in Live(s) ==> AsleepNow(s, s.threads[t]))
  }

  predicate AsleepNow(s: State, x: Thread) {
    x.last == s.stopCount && !x.restarted
  }

  /** What the collector does next. */
  function Move(s: State, t: Id): Action {
    match s.pc
    case Idle => StopWorld
    case Sending(todo, _) => if todo == {} then Sent else SendTo(t)
    case Timed(_) => TimeOut
    case Polling(_) => PollDone
    case Resending(_, todo, _) => if todo == {} then Resent else ResendTo(t)
    case Barrier(left) => if left == 0 then BarrierDone else WaitOne
    case Stopped => StartWorld
  }

  ghost function Work(s: State): nat {
    match s.pc
    case Idle => 0
    case Sending(todo, _) => 4 + |Live(s)| + |todo|
    case Timed(left) => 3 + left
    case Polling(left) => 2 + left
    case Resending(left, todo, _) => 3 + left + |todo|
    case Barrier(left) => 1 + left
    case Stopped => 0
  }

  ghost predicate AtWork(s: State) {
    s.pc != Idle && s.pc != Stopped
  }

  ghost predicate MayMove(s: State, t: Id) {
    || (s.pc.Sending? && (s.pc.todo == {} || t in s.pc.todo))
    || (s.pc.Resending? && (s.pc.todo == {} || t in s.pc.todo))
    || !(s.pc.Sending? || s.pc.Resending?)
  }

  lemma CollectorMoves(s: State, t: Id)
    requires Inv(s) && AtWork(s) && Settled(s) && MayMove(s, t)
    ensures Allowed(s, Move(s, t))
    ensures var z := Next(s, Move(s, t));
      && Inv(z) && Settled(z) && z == s.(pc := z.pc, sem := z.sem, consumed := z.consumed)
      && (if AtWork(z) then Work(z) < Work(s) else z.pc == if s.restarting then Idle else Stopped)
  {
    CollectorMay(s, t);
    StepKeepsInv(s, Move(s, t));
    hide Inv, CountInv;
    CollectorOnly(s, t);
  }

  lemma CollectorMay(s: State, t: Id)
    requires Inv(s) && AtWork(s) && Settled(s) && MayMove(s, t)
    ensures Allowed(s, Move(s, t))
    ensures match s.pc
      case Sending(todo, sent) => todo == {} ==> sent == |Live(s)|
      case Polling(left) => s.sem == left
      case Resending(left, todo, sent) => s.sem == left
      case Barrier(left) => s.retry || !s.restarting
      case _ => true
  {
    assert Live(s) - {} == Live(s);
  }

  lemma CollectorOnly(s: State, t: Id)
    requires AtWork(s) && Settled(s) && Allowed(s, Move(s, t))
    requires match s.pc
      case Sending(todo, sent) => todo == {} ==> sent == |Live(s)|
      case Polling(left) => s.sem == left
      case Resending(left, todo, sent) => s.sem == left
      case Barrier(left) => s.retry || !s.restarting
      case _ => true
    ensures var z := Next(s, Move(s, t));
      && Settled(z) && z == s.(pc := z.pc, sem := z.sem, consumed := z.consumed)
      && (if AtWork(z) then Work(z) < Work(s) else z.pc == if s.restarting then Idle else Stopped)
  {
    hide Next, Move, Allowed, Settled, Work, Live, AtWork;
    CollectorWorks(s, t);
    StillSettled(s, Next(s, Move(s, t)));
  }

  lemma CollectorWorks(s: State, t: Id)
    requires AtWork(s) && Settled(s) && Allowed(s, Move(s, t))
    requires match s.pc
      case Sending(todo, sent) => todo == {} ==> sent == |Live(s)|
      case Polling(left) => s.sem == left
      case Resending(left, todo, sent) => s.sem == left
      case Barrier(left) => s.retry || !s.restarting
      case _ => true
    ensures var z := Next(s, Move(s, t));
      && z == s.(pc := z.pc, sem := z.sem, consumed := z.consumed)
      && (if AtWork(z) then Work(z) < Work(s) else z.pc == if s.restarting then Idle else Stopped)
  {
    hide Live, Settled, Next, Allowed;
    var z := Next(s, Move(s, t));
    if (s.pc.Sending? || s.pc.Resending?) && s.pc.todo != {} {
      SendsOn(s, t);
    } else {
      GetsOn(s, t);
    }
    SettledIsLive(s, z);
  }

  lemma SendsOn(s: State, t: Id)
    requires (s.pc.Sending? || s.pc.Resending?) && s.pc.todo != {} && Settled(s) && Allowed(s, Move(s, t))
    ensures t in s.pc.todo && |s.pc.todo - {t}| < |s.pc.todo|
    ensures var z := Next(s, Move(s, t));
      && z == s.(pc := z.pc)
      && (z.pc.Sending? || z.pc.Resending?) && z.pc.Sending? == s.pc.Sending? && z.pc.todo == s.pc.todo - {t}
      && (s.pc.Resending? ==> z.pc.left == s.pc.left)
  {
    hide MustSignal, Signalled, Settled;
    NotSignalledAgain(s, t);
    OneLess(s.pc.todo, t);
  }

  lemma GetsOn(s: State, t: Id)
    requires AtWork(s) && Allowed(s, Move(s, t)) && ((s.pc.Sending? || s.pc.Resending?) ==> s.pc.todo == {})
    ensures var z := Next(s, Move(s, t));
      && z == s.(pc := z.pc, sem := z.sem, consumed := z.consumed)
      && z.pc == match s.pc
         case Sending(_, sent) => if s.retry then Timed(sent) else if s.restarting then Idle else Barrier(sent)
         case Timed(left) => Polling(left)
         case Polling(left) => Barrier(left)
         case Resending(left, _, sent) => Polling(if sent as int < left - s.sem then s.sem + sent else left)
         case Barrier(left) => if left > 0 then Barrier(left - 1) else if s.restarting then Idle else Stopped
         case _ => s.pc
  {
  }

  lemma OneLess(todo: set<Id>, t: Id)
    requires t in todo
    ensures |todo - {t}| == |todo| - 1
  {
  }

  lemma NotSignalledAgain(s: State, t: Id)
    requires Settled(s) && t in s.threads
    ensures Signalled(s, t) == s || (!MustSignal(s, t, false) && !MustSignal(s, t, true))
  {
  }

  lemma SettledIsLive(s: State, z: State)
    ensures z.threads == s.threads ==> Live(z) == Live(s)
  {
  }

  lemma StillSettled(s: State, z: State)
    requires Settled(s) && z == s.(pc := z.pc, sem := z.sem, consumed := z.consumed)
    ensures Settled(z)
  {
    assert Live(z) == Live(s);
  }

  /** Once all threads have done their part, the collector gets to the end of the stop or restart. */
  lemma {:induction false} CollectorEnds(s: State) returns (run: seq<Action>, z: State)
    requires Inv(s) && AtWork(s) && Settled(s)
    ensures Meanwhile(s, run, z) && Inv(z) && z == s.(pc := z.pc, sem := z.sem, consumed := z.consumed)
    ensures z.pc == if s.restarting then Idle else Stopped
    decreases Work(s)
  {
    var t: Id := 0;
    if s.pc.Sending? && s.pc.todo != {} {
      t :| t in s.pc.todo;
    } else if s.pc.Resending? && s.pc.todo != {} {
      t :| t in s.pc.todo;
    }
    CollectorMoves(s, t);
    hide Inv, Next, Allowed, Settled, Work;
    var m := Next(s, Move(s, t));
    OneMove(s, Move(s, t));
    run, z := [Move(s, t)], m;
    if AtWork(m) {
      var rest;
      rest, z := CollectorEnds(m);
      MeanwhileOn(s, run, m, rest, z);
      run := run + rest;
    }
  }

  lemma RunningHaveAcked(s: State)
    requires Inv(s) && s.restarting && s.pc != Idle && AllRun(s, {})
    ensures Settled(s)
  {
    if s.retry {
      forall t | t in Live(s) ensures t in s.acked {
        assert ThreadInv(s, t, s.threads[t]);
      }
    }
  }

  /** From anywhere in a restart, a run leads to its end, with all threads back in the client's code. */
  lemma RestartCanEnd(s: State) returns (run: seq<Action>, z: State)
    requires Inv(s) && s.restarting && s.pc != Idle
    ensures Meanwhile(s, run, z) && Inv(z)
    ensures z.pc == Idle && forall t :: t in z.threads ==> Allowed(z, Mutate(t))
    ensures z.threads.Keys == s.threads.Keys && z.sem == 0
  {
    hide Inv, Meanwhile, Settled, Work;
    var m, rest;
    NotStopped(s);
    run, m := DriveAllToRun(s, s.threads.Keys);
    RunningHaveAcked(m);
    rest, z := CollectorEnds(m);
    MeanwhileOn(s, run, m, rest, z);
    run := run + rest;
    KeysStay(s, run, z);
    NothingPosted(z);
  }

  lemma NotStopped(s: State)
    requires Inv(s) && s.restarting && s.pc != Idle
    ensures !s.worldStopped && AtWork(s)
  {
  }

  lemma NothingPosted(s: State)
    requires Inv(s) && s.pc == Idle
    ensures s.sem == 0
  {
  }

  lemma {:induction false} KeysStay(s: State, run: seq<Action>, z: State)
    requires Meanwhile(s, run, z)
    ensures z.threads.Keys == s.threads.Keys
    decreases |run|
  {
    hide Next, Allowed;
    if run != [] {
      StepKeepsKeys(s, run[0]);
      KeysStay(Next(s, run[0]), run[1..], z);
    }
  }

  lemma StepKeepsKeys(s: State, a: Action)
    requires Allowed(s, a)
    ensures Next(s, a).threads.Keys == s.threads.Keys
  {
    assert forall t, x :: t in s.threads ==> Set(s, t, x).threads.Keys == s.threads.Keys;
  }

  /** A stop is under way. */
  ghost predicate Stopping(s: State) {
    Inv(s) && InStop(s) && s.pc != Stopped
  }

  /** Every live thread that is not in `but` will acknowledge by itself, or has done so. */
  ghost predicate AllCalled(s: State, but: set<Id>) {
    forall t :: t in Live(s) && t !in but ==> AsleepNow(s, s.threads[t]) || Summoned(s, s.threads[t])
  }

  lemma PendingIsCalled(s: State, t: Id)
    requires Stopping(s) && t in Live(s)
    requires s.retry ==> t in s.acked || s.threads[t].pending
    requires !s.retry ==> !(s.pc.Sending? && t in s.pc.todo)
    ensures AsleepNow(s, s.threads[t]) || Summoned(s, s.threads[t])
  {
    assert ThreadInv(s, t, s.threads[t]);
  }

  /** Without retries: all signals are sent. */
  lemma {:induction false} SendToAll(s: State) returns (run: seq<Action>, z: State)
    requires Stopping(s) && !s.retry
    ensures Meanwhile(s, run, z) && Stopping(z) && AllCalled(z, {})
    decreases if s.pc.Sending? then |s.pc.todo| else 0
  {
    if s.pc.Sending? && s.pc.todo != {} {
      hide Stopping, AllCalled, Meanwhile, Next, Allowed;
      var t :| t in s.pc.todo;
      SendOneMore(s, t);
      var m := Next(s, SendTo(t));
      OneMove(s, SendTo(t));
      var rest;
      rest, z := SendToAll(m);
      MeanwhileOn(s, [SendTo(t)], m, rest, z);
      run := [SendTo(t)] + rest;
    } else {
      run, z := [], s;
      NoMove(s);
      SignalsSent(s);
    }
  }

  lemma SendOneMore(s: State, t: Id)
    requires Stopping(s) && !s.retry && s.pc.Sending? && t in s.pc.todo
    ensures Allowed(s, SendTo(t))
    ensures var z := Next(s, SendTo(t)); Stopping(z) && !z.retry && z.pc.Sending? && z.pc.todo == s.pc.todo - {t}
  {
    hide Inv;
    TodoAreThreads(s, t);
    StepKeepsInv(s, SendTo(t));
  }

  lemma SignalsSent(s: State)
    requires Stopping(s) && !s.retry && (s.pc.Sending? ==> s.pc.todo == {})
    ensures AllCalled(s, {})
  {
    forall t | t in Live(s) ensures AsleepNow(s, s.threads[t]) || Summoned(s, s.threads[t]) {
      PendingIsCalled(s, t);
    }
  }

  lemma TodoAreThreads(s: State, t: Id)
    requires Inv(s)
    ensures s.pc.Sending? && t in s.pc.todo ==> t in s.threads
    ensures s.pc.Resending? && t in s.pc.todo ==> t in s.threads
  {
  }

  function BeforePolling(s: State): nat {
    match s.pc
    case Sending(todo, _) => 2 + |todo|
    case Resending(_, todo, _) => 1 + |todo|
    case Timed(_) => 1
    case _ => 0
  }

  lemma MoveToPolling(s: State) returns (a: Action)
    requires Stopping(s) && s.retry && !s.pc.Barrier? && !s.pc.Polling?
    ensures Allowed(s, a) && a != StopWorld && a != StartWorld
    ensures var z := Next(s, a); Stopping(z) && z.retry && !z.pc.Barrier? && BeforePolling(z) < BeforePolling(s)
  {
    hide Inv, Next, BeforePolling;
    var t: Id := 0;
    if (s.pc.Sending? || s.pc.Resending?) && s.pc.todo != {} {
      t :| t in s.pc.todo;
      TodoAreThreads(s, t);
    }
    a := Move(s, t);
    NearerToPolling(s, t);
    StepKeepsInv(s, a);
  }

  lemma NearerToPolling(s: State, t: Id)
    requires InStop(s) && AtWork(s) && s.retry && !s.pc.Barrier? && !s.pc.Polling?
    requires (s.pc.Sending? || s.pc.Resending?) && s.pc.todo != {} ==> t in s.pc.todo && t in s.threads
    ensures var a := Move(s, t); Allowed(s, a) && a != StopWorld && a != StartWorld
    ensures var z := Next(s, Move(s, t));
      InStop(z) && AtWork(z) && z.retry && !z.pc.Barrier? && BeforePolling(z) < BeforePolling(s)
  {
  }

  /** With retries: the collector gets to where it decides whether to resend. */
  lemma {:induction false} ToPolling(s: State) returns (run: seq<Action>, z: State)
    requires Stopping(s) && s.retry && !s.pc.Barrier?
    ensures Meanwhile(s, run, z) && Stopping(z) && z.retry && z.pc.Polling?
    decreases BeforePolling(s)
  {
    hide Meanwhile;
    NoMove(s);
    if s.pc.Polling? {
      run, z := [], s;
    } else {
      var a := MoveToPolling(s);
      hide Next, Allowed, Stopping, BeforePolling;
      var m := Next(s, a);
      OneMove(s, a);
      var rest;
      rest, z := ToPolling(m);
      MeanwhileOn(s, [a], m, rest, z);
      run := [a] + rest;
    }
  }

  /** Whoever has not acknowledged, and is not in `but`, has a signal pending. */
  ghost predicate AllPending(s: State, but: set<Id>) {
    forall t :: t in Live(s) && t !in but ==> t in s.acked || s.threads[t].pending
  }

  lemma {:induction false} ResendToAll(s: State) returns (run: seq<Action>, z: State)
    requires Stopping(s) && s.retry && s.pc.Resending? && AllPending(s, s.pc.todo)
    ensures Meanwhile(s, run, z) && Stopping(z) && z.retry && AllPending(z, {})
    decreases |s.pc.todo|
  {
    if s.pc.todo == {} {
      run, z := [], s;
    } else {
      var t :| t in s.pc.todo;
      ResendOne(s, t);
      var m := Next(s, ResendTo(t));
      hide Stopping, AllPending, Next;
      OneMove(s, ResendTo(t));
      var rest;
      rest, z := ResendToAll(m);
      MeanwhileOn(s, [ResendTo(t)], m, rest, z);
      run := [ResendTo(t)] + rest;
    }
  }

  lemma ResendOne(s: State, t: Id)
    requires Stopping(s) && s.retry && s.pc.Resending? && AllPending(s, s.pc.todo) && t in s.pc.todo
    ensures Allowed(s, ResendTo(t))
    ensures var z := Next(s, ResendTo(t));
      Stopping(z) && z.retry && z.pc.Resending? && z.pc.todo == s.pc.todo - {t} && AllPending(z, z.pc.todo)
  {
    hide Inv, Next, AllPending;
    TodoAreThreads(s, t);
    LastHasAcked(s, t);
    ResendOneOnly(s, t);
    StepKeepsInv(s, ResendTo(t));
  }

  lemma ResendOneOnly(s: State, t: Id)
    requires s.pc.Resending? && AllPending(s, s.pc.todo) && t in s.pc.todo && t in s.threads && InStop(s)
    requires s.threads[t].last == s.stopCount ==> t in s.acked
    ensures var z := Next(s, ResendTo(t));
      z.retry == s.retry && InStop(z) && z.pc.Resending? && z.pc.todo == s.pc.todo - {t} && AllPending(z, z.pc.todo)
  {
  }

  lemma LastHasAcked(s: State, t: Id)
    requires Stopping(s) && t in s.threads
    ensures s.threads[t].last == s.stopCount ==> t in s.acked
  {
    assert ThreadInv(s, t, s.threads[t]);
  }

  /** With retries: all who have not acknowledged get a signal, again if need be. */
  lemma CallAgain(s: State) returns (run: seq<Action>, z: State)
    requires Stopping(s) && s.retry
    ensures Meanwhile(s, run, z) && Stopping(z) && AllCalled(z, {})
  {
    run, z := [], s;
    if !s.pc.Barrier? {
      run, z := ToPolling(s);
      if z.acked != Live(z) {
        MayResend(z);
        var p, rest := Next(z, Resend), [];
        OneMove(z, Resend);
        MeanwhileOn(s, run, z, [Resend], p);
        run := run + [Resend];
        StepKeepsInv(z, Resend);
        rest, z := ResendToAll(p);
        MeanwhileOn(s, run, p, rest, z);
        run := run + rest;
      }
    }
    AllHavePending(z);
  }

  lemma MayResend(s: State)
    requires Stopping(s) && s.retry && s.pc.Polling? && s.acked != Live(s)
    ensures Allowed(s, Resend)
  {
    SubsetCardinality(s.acked, Live(s));
    if |s.acked| == |Live(s)| {
      SameCardinality(s.acked, Live(s));
    }
  }

  lemma AllHavePending(s: State)
    requires Stopping(s) && s.retry && (s.acked == Live(s) || AllPending(s, {}))
    ensures AllCalled(s, {})
  {
    forall t | t in Live(s) ensures AsleepNow(s, s.threads[t]) || Summoned(s, s.threads[t]) {
      PendingIsCalled(s, t);
    }
  }

  lemma SleepOne(s: State, todo: set<Id>, t: Id) returns (run: seq<Action>, z: State)
    requires Stopping(s) && AllCalled(s, {}) && t in todo && todo <= Live(s)
    requires forall u :: u in Live(s) && u !in todo ==> AsleepNow(s, s.threads[u])
    ensures Meanwhile(s, run, z) && Stopping(z) && AllCalled(z, {}) && Live(z) == Live(s)
    ensures forall u :: u in Live(z) && u !in todo - {t} ==> AsleepNow(z, z.threads[u])
  {
    hide Inv, Live, Leads, Summoned, Distance;
    run, z := [], s;
    LiveAreThreads(s);
    if AsleepNow(s, s.threads[t]) {
      NoMove(s);
    } else {
      run, z := DriveToSleep(s, t);
      StopRunKeepsInv(s, run, z);
      SameLive(s, z, t);
      OthersCalled(s, z, t);
    }
  }

  lemma LiveAreThreads(s: State)
    ensures forall t :: t in Live(s) ==> t in s.threads
  {
  }

  lemma OthersCalled(s: State, z: State, t: Id)
    requires t in z.threads && z == s.(threads := s.threads[t := z.threads[t]], sem := z.sem, acked := z.acked)
    requires Live(z) == Live(s) && AllCalled(s, {}) && AsleepNow(z, z.threads[t])
    ensures AllCalled(z, {})
  {
  }

  /** All that have been called go to sleep. */
  lemma {:induction false} SleepAll(s: State, todo: set<Id>) returns (run: seq<Action>, z: State)
    requires Stopping(s) && AllCalled(s, {}) && todo <= Live(s)
    requires forall t :: t in Live(s) && t !in todo ==> AsleepNow(s, s.threads[t])
    ensures Meanwhile(s, run, z) && Stopping(z) && forall t :: t in Live(z) ==> AsleepNow(z, z.threads[t])
    decreases todo
  {
    hide Inv, Summoned, Meanwhile;
    NoMove(s);
    if todo == {} {
      run, z := [], s;
    } else {
      var t :| t in todo;
      var m, rest;
      run, m := SleepOne(s, todo, t);
      hide Stopping, AllCalled, AsleepNow;
      rest, z := SleepAll(m, todo - {t});
      MeanwhileOn(s, run, m, rest, z);
      run := run + rest;
    }
  }

  lemma AsleepHaveAcked(s: State)
    requires Stopping(s) && forall t :: t in Live(s) ==> AsleepNow(s, s.threads[t])
    ensures Settled(s)
  {
    forall t | t in Live(s) ensures t in s.acked {
      assert ThreadInv(s, t, s.threads[t]);
    }
  }

  /**
   From anywhere in a stop, a run leads to its end, even if signals have been lost on the way:
   all live threads sleep, and the world is stopped.
   */
  lemma StopCanEnd(s: State) returns (run: seq<Action>, z: State)
    requires Inv(s) && InStop(s)
    ensures Meanwhile(s, run, z) && Inv(z) && z.pc == Stopped && WorldIsStopped(z)
  {
    run, z := [], s;
    if s.pc != Stopped {
      var p, m, more, rest;
      if s.retry {
        run, p := CallAgain(s);
      } else {
        run, p := SendToAll(s);
      }
      more, m := SleepAll(p, Live(p));
      MeanwhileOn(s, run, p, more, m);
      AsleepHaveAcked(m);
      rest, z := CollectorEnds(m);
      MeanwhileOn(s, run + more, m, rest, z);
      run := run + more + rest;
    }
    StoppedMeansStopped(z);
  }

  // -----------------------------------------------------------------------------------
  // A run that goes wrong, from the very first collection
  // -----------------------------------------------------------------------------------

  lemma Do(s0: State, run: seq<Action>, s: State, a: Action) returns (longer: seq<Action>, z: State)
    requires Leads(s0, run, s) && Allowed(s, a)
    ensures z == Next(s, a) && Leads(s0, longer, z)
  {
    z := Next(s, a);
    assert Leads(z, [], z);
    LeadsOn(s0, run, s, [a], z);
    longer := run + [a];
  }

  ghost function TwoThreads(x: Thread, y: Thread, count: nat, pc: CollectorPc, sem: nat, acked: set<Id>, consumed: nat): State {
    State(map[0 := x, 1 := y], count, pc != Idle, true, sem, pc, false, acked, consumed)
  }

  /** One thread's way through the handler. */
  lemma GoToSleep(s0: State, run0: seq<Action>, s: State, t: Id) returns (run: seq<Action>, z: State)
    requires Leads(s0, run0, s)
    requires t in s.threads && s.threads[t].pc == Running && s.threads[t].pending && s.threads[t].last < s.stopCount
    ensures Leads(s0, run, z)
    ensures z == s.(threads := s.threads[t := Sleeping(s.stopCount, s.threads[t])], sem := s.sem + 1, acked := s.acked + {t})
  {
    run, z := EnterHandler(s0, run0, s, t);
    hide Leads;
    run, z := Do(s0, run, z, Ack(t));
    run, z := Do(s0, run, z, StoreLast(t));
  }

  function Sleeping(c: nat, x: Thread): Thread {
    Thread(Asleep(c), c, false, c, false, x.live)
  }

  /** A thread enters the handler and stores its stack pointer. */
  lemma EnterHandler(s0: State, run0: seq<Action>, s: State, t: Id) returns (run: seq<Action>, z: State)
    requires Leads(s0, run0, s)
    requires t in s.threads && s.threads[t].pc == Running && s.threads[t].pending && s.threads[t].last < s.stopCount
    ensures Leads(s0, run, z)
    ensures var x := s.threads[t];
      z == s.(threads := s.threads[t := x.(pc := Saved(s.stopCount), sp := s.stopCount, pending := false)])
  {
    hide Leads;
    run, z := Do(s0, run0, s, Deliver(t));
    run, z := Do(s0, run, z, Load(t));
    run, z := Do(s0, run, z, Compare(t));
  }

  /** One thread's way back to the client's code. */
  lemma GoOn(s0: State, run0: seq<Action>, s: State, t: Id) returns (run: seq<Action>, z: State)
    requires Leads(s0, run0, s)
    requires t in s.threads && s.threads[t].pc.Asleep? && !s.worldStopped && s.retry
    ensures Leads(s0, run, z)
    ensures var x := s.threads[t];
      z == s.(threads := s.threads[t := x.(pc := Running, last := x.pc.c, restarted := true)],
              sem := s.sem + 1, acked := s.acked + {t})
  {
    hide Leads;
    run, z := Do(s0, run0, s, WakeUp(t));
    run, z := Do(s0, run, z, AckAgain(t));
    run, z := Do(s0, run, z, SetRestarted(t));
  }

  /** The collector signals threads 0 and 1. */
  lemma SendBoth(s: State, begin: Action) returns (run: seq<Action>, z: State)
    requires (begin == StopWorld && s.pc == Idle) || (begin == StartWorld && s.pc == Stopped)
    requires s.threads.Keys == {0, 1} && s.retry && s.threads[0].live && s.threads[1].live
    requires s.threads[0].last <= s.stopCount && s.threads[1].last <= s.stopCount
    ensures Leads(s, run, z)
    ensures var c := if begin == StopWorld then s.stopCount + 2 else s.stopCount;
      var ts := if begin == StopWorld
                then map[0 := s.threads[0].(pending := true), 1 := s.threads[1].(pending := true)] else s.threads;
      z == State(ts, c, begin == StopWorld, true, s.sem, Timed(2), begin == StartWorld, {}, 0)
  {
    assert Leads(s, [], s);
    hide Leads;
    run, z := Do(s, [], s, begin);
    run, z := Do(s, run, z, SendTo(0));
    run, z := Do(s, run, z, SendTo(1));
    run, z := Do(s, run, z, Sent);
  }

  const fresh0 := Thread(Running, 0, false, 0, false, true)

  /** The collector loses patience and sends its signals once more: thread 1 is done with them. */
  lemma SendAgain(s0: State, run0: seq<Action>, s: State) returns (run: seq<Action>, z: State)
    requires Leads(s0, run0, s) && s.pc == Timed(2) && s.sem == 1 && !s.restarting
    requires s.threads.Keys == {0, 1} && s.threads[0].live && s.threads[0].last != s.stopCount
    requires s.threads[1].last == s.stopCount && !s.threads[1].restarted
    ensures Leads(s0, run, z)
    ensures z == s.(pc := Polling(2), threads := s.threads[0 := s.threads[0].(pending := true)])
  {
    hide Leads;
    run, z := Do(s0, run0, s, TimeOut);
    run, z := Do(s0, run, z, Resend);
    run, z := Do(s0, run, z, ResendTo(0));
    run, z := Do(s0, run, z, ResendTo(1));
    run, z := Do(s0, run, z, Resent);
  }

  /** The collector takes the acknowledgements it has counted on, and goes on. */
  lemma TakeAll(s0: State, run0: seq<Action>, s: State) returns (run: seq<Action>, z: State)
    requires Leads(s0, run0, s) && (s.pc.Timed? || s.pc.Polling?) && 0 < s.pc.left == s.sem <= 2
    ensures Leads(s0, run, z)
    ensures z == s.(pc := if s.restarting then Idle else Stopped, sem := 0, consumed := s.consumed + s.sem)
  {
    hide Leads;
    run, z := run0, s;
    if s.pc.Timed? {
      run, z := Do(s0, run, z, TimeOut);
    }
    run, z := Do(s0, run, z, PollDone);
    run, z := Do(s0, run, z, WaitOne);
    if z.pc.left > 0 {
      run, z := Do(s0, run, z, WaitOne);
    }
    run, z := Do(s0, run, z, BarrierDone);
  }

  /** Thread 0 is slow, and its signal is sent again while it is in the handler: it stays pending. */
  lemma SlowThread(s: State) returns (run: seq<Action>, z: State)
    requires s == TwoThreads(fresh0, fresh0, 0, Idle, 0, {}, 0)
    ensures Leads(s, run, z)
    ensures z == TwoThreads(Sleeping(2, fresh0).(pending := true), Sleeping(2, fresh0), 2, Stopped, 0, {0, 1}, 2)
  {
    hide Leads;
    run, z := SendBoth(s, StopWorld);
    run, z := EnterHandler(s, run, z, 0);
    run, z := GoToSleep(s, run, z, 1);
    run, z := SendAgain(s, run, z);
    run, z := Do(s, run, z, Ack(0));
    run, z := Do(s, run, z, StoreLast(0));
    run, z := TakeAll(s, run, z);
  }

  /** Both threads go on, thread 0 with the signal still pending. */
  lemma BothGoOn(s0: State, run0: seq<Action>, s: State) returns (run: seq<Action>, z: State)
    requires Leads(s0, run0, s)
    requires s == TwoThreads(Sleeping(2, fresh0).(pending := true), Sleeping(2, fresh0), 2, Stopped, 0, {0, 1}, 2)
    ensures Leads(s0, run, z)
    ensures z.pc == Idle && z.stopCount == 2 && z.sem == 0 && z.retry
    ensures z.threads == map[0 := Thread(Running, 2, true, 2, true, true), 1 := Thread(Running, 2, true, 2, false, true)]
  {
    var more;
    more, z := SendBoth(s, StartWorld);
    LeadsOn(s0, run0, s, more, z);
    run := run0 + more;
    hide Leads;
    run, z := GoOn(s0, run, z, 0);
    run, z := GoOn(s0, run, z, 1);
    run, z := TakeAll(s0, run, z);
  }

  /** Thread 0 acknowledges the next stop too early, and is counted in thread 1's place. */
  lemma CountedInstead(s0: State, run0: seq<Action>, s: State) returns (run: seq<Action>, z: State)
    requires Leads(s0, run0, s)
    requires s.pc == Idle && s.stopCount == 2 && s.sem == 0 && s.retry
    requires s.threads == map[0 := Thread(Running, 2, true, 2, true, true), 1 := Thread(Running, 2, true, 2, false, true)]
    ensures Leads(s0, run, z)
    ensures z.pc == Stopped && 1 in z.threads && z.threads[1].live && z.threads[1].pc == Running
  {
    run, z := Do(s0, run0, s, StopWorld);
    run, z := GoToSleep(s0, run, z, 0);
    hide Leads;
    run, z := Do(s0, run, z, SendTo(0));
    run, z := Do(s0, run, z, SendTo(1));
    run, z := Do(s0, run, z, Sent);
    run, z := TakeAll(s0, run, z);
  }

  /**
   What happens then, from a start with two running threads: after one resent signal, the second
   stop reports the world as stopped while a live thread keeps running the client's code.
   */
  lemma AThreadRunsInAStoppedWorld() returns (s: State, run: seq<Action>, z: State)
    ensures Inv(s) && s.pc == Idle && NoStale(s)
    ensures Leads(s, run, z) && z.pc == Stopped
    ensures 1 in Live(z) && Allowed(z, Mutate(1))
  {
    s := TwoThreads(fresh0, fresh0, 0, Idle, 0, {}, 0);
    run, z := SlowThread(s);
    run, z := BothGoOn(s, run, z);
    run, z := CountedInstead(s, run, z);
  }
}
