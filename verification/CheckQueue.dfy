/** The parallel verification queue (src/checkqueue.h) as a state machine whose steps are its
    critical sections: one master and any number of workers, interleaved in every way. */
module CheckQueue {
  import NonLinear
  import opened Sequences

  /** A verification, with the answer it gives when it is run. */
  datatype Check = Check(id: nat, passes: bool)

  /** Where a thread is in Loop.  `woken` says that a notification is pending for a sleeper. */
  datatype Local =
    | Outside
    | Entering
    | Sleeping(woken: bool)
    | Working(batch: seq<Check>, next: nat, fOk: bool)

  const MASTER := 0

  /** Thread MASTER is the master.  `added` is history: the checks added since the last Wait
      returned. */
  datatype State = State(
    queue: seq<Check>, nIdle: int, nTotal: int, fAllOk: bool, nTodo: int, nBatchSize: nat,
    threads: seq<Local>, added: seq<Check>)

  datatype Event =
    | Call(t: nat)
    | Add(checks: seq<Check>, woken: seq<Local>)
    | Critical(t: nat)
    | Wake(t: nat)
    | Execute(t: nat)

  // ---------- the steps ----------

  function Initial(n: nat, nBatchSize: nat): State {
    State([], 0, 0, true, 0, nBatchSize, seq(n, _ => Outside), [])
  }

  function Max(a: int, b: int): int { if a > b then a else b }
  function Min(a: int, b: int): int { if a < b then a else b }

  /** The number of checks a thread takes from the queue. */
  function BatchSize(s: State): int
    requires s.nTotal + s.nIdle + 1 > 0
  {
    Max(1, Min(s.nBatchSize, |s.queue| / (s.nTotal + s.nIdle + 1)))
  }

  /** A thread takes as many checks as everyone would get if the queue were shared out evenly, with idle threads
      counted twice, up to the batch size, and at least one. */
  lemma BatchShare(s: State)
    requires s.nTotal + s.nIdle + 1 > 0
    ensures var n, w := BatchSize(s), s.nTotal + s.nIdle + 1;
            && n >= 1 && (n > 1 ==> n <= s.nBatchSize && n * w <= |s.queue|)
            && (n < s.nBatchSize ==> (n + 1) * w > |s.queue|)
  {
    var n, w := BatchSize(s), s.nTotal + s.nIdle + 1;
    var q := |s.queue| / w;
    assert |s.queue| == w * q + |s.queue| % w;
    if n > 1 { Times(n, q, w); }
    if n < s.nBatchSize { Times(q + 1, n + 1, w); }
  }

  lemma Times(a: int, b: int, w: int)
    requires a <= b && w >= 0
    ensures a * w <= b * w
  {
  }

  /** The loop around cond.wait and what follows it, up to the release of the lock. */
  ghost predicate Proceed(s: State, t: nat, s': State)
    requires t < |s.threads|
  {
    if s.queue == [] then
      if t == MASTER && s.nTodo == 0 then
        s' == s.(nTotal := s.nTotal - 1, fAllOk := true, threads := s.threads[t := Outside], added := [])
      else
        s' == s.(nIdle := s.nIdle + 1, threads := s.threads[t := Sleeping(false)])
    else
      && s.nTotal + s.nIdle + 1 > 0
      && var nNow := BatchSize(s);
      && nNow <= |s.queue|
      && s' == s.(queue := s.queue[..|s.queue| - nNow],
                  threads := s.threads[t := Working(Reversed(s.queue[|s.queue| - nNow..]), 0, s.fAllOk)])
  }

  /** notify_one on the master's condition. */
  function NotifyMaster(threads: seq<Local>): seq<Local>
    requires |threads| > MASTER
  {
    if threads[MASTER].Sleeping? then threads[MASTER := Sleeping(true)] else threads
  }

  /** The clean-up at the start of the critical section. */
  function CleanUp(s: State, t: nat): State
    requires t < |s.threads|
  {
    match s.threads[t]
    case Working(batch, _, fOk) =>
      s.(fAllOk := s.fAllOk && fOk, nTodo := s.nTodo - |batch|,
         threads := if s.nTodo - |batch| == 0 && t != MASTER
                    then NotifyMaster(s.threads[t := Entering]) else s.threads[t := Entering])
    case _ => s.(nTotal := s.nTotal + 1)
  }

  /** `after` is `threads` with sleeping workers woken: one of them, if any, for one check, all
      of them for more. */
  ghost predicate WakesWorkers(threads: seq<Local>, n: nat, after: seq<Local>) {
    && |after| == |threads|
    && (forall t | 0 <= t < |threads| && (t == MASTER || !threads[t].Sleeping?) :: after[t] == threads[t])
    && (n == 0 ==> after == threads)
    && (n == 1 ==> if exists t | MASTER < t < |threads| :: threads[t] == Sleeping(false)
                   then exists t | MASTER < t < |threads| :: threads[t] == Sleeping(false) && after == threads[t := Sleeping(true)]
                   else after == threads)
    && (n > 1 ==> forall t | MASTER < t < |threads| && threads[t].Sleeping? :: after[t] == Sleeping(true))
    && (forall t | 0 <= t < |threads| && threads[t].Sleeping? :: after[t].Sleeping?)
  }

  ghost predicate Next(s: State, e: Event, s': State) {
    match e
    // A worker thread starts, or the master calls Wait.
    case Call(t) =>
      t < |s.threads| && s.threads[t].Outside? && s' == s.(threads := s.threads[t := Entering])
    // The master adds checks while it is not in Wait.
    case Add(checks, woken) =>
      && |s.threads| > MASTER && s.threads[MASTER].Outside?
      && WakesWorkers(s.threads, |checks|, woken)
      && s' == s.(queue := s.queue + checks, nTodo := s.nTodo + |checks|, added := s.added + checks, threads := woken)
    // A thread takes the lock, on entry or after a batch.
    case Critical(t) =>
      && t < |s.threads|
      && (s.threads[t].Entering? || (s.threads[t].Working? && s.threads[t].next == |s.threads[t].batch|))
      && Proceed(CleanUp(s, t), t, s')
    // A sleeper wakes, notified or not, and takes the lock again.
    case Wake(t) =>
      t < |s.threads| && s.threads[t].Sleeping? && Proceed(s.(nIdle := s.nIdle - 1, threads := s.threads[t := Entering]), t, s')
    // A thread runs the next check of its batch, or skips it after a failure.
    case Execute(t) =>
      && t < |s.threads| && s.threads[t].Working? && s.threads[t].next < |s.threads[t].batch|
      && var w := s.threads[t];
         s' == s.(threads := s.threads[t := w.(next := w.next + 1, fOk := w.fOk && w.batch[w.next].passes)])
  }

  // ---------- counting threads ----------

  ghost function Sum(threads: seq<Local>, f: Local -> int): int {
    if threads == [] then 0 else Sum(threads[..|threads| - 1], f) + f(threads[|threads| - 1])
  }

  lemma {:induction false} SumUpdate(threads: seq<Local>, f: Local -> int, t: nat, l: Local)
    requires t < |threads|
    ensures Sum(threads[t := l], f) == Sum(threads, f) - f(threads[t]) + f(l)
    decreases |threads|
  {
    var last := |threads| - 1;
    if t == last {
      assert threads[t := l][..last] == threads[..last];
    } else {
      assert threads[t := l][..last] == threads[..last][t := l];
      SumUpdate(threads[..last], f, t, l);
    }
  }

  lemma {:induction false} SumSame(a: seq<Local>, b: seq<Local>, f: Local -> int)
    requires |a| == |b| && forall t | 0 <= t < |a| :: f(a[t]) == f(b[t])
    ensures Sum(a, f) == Sum(b, f)
    decreases |a|
  {
    if a != [] {
      SumSame(a[..|a| - 1], b[..|b| - 1], f);
    }
  }

  lemma {:induction false} SumNonNegative(threads: seq<Local>, f: Local -> int)
    requires forall t | 0 <= t < |threads| :: f(threads[t]) >= 0
    ensures Sum(threads, f) >= 0
    ensures Sum(threads, f) > 0 ==> exists t | 0 <= t < |threads| :: f(threads[t]) > 0
    ensures forall t | 0 <= t < |threads| :: f(threads[t]) <= Sum(threads, f)
    decreases |threads|
  {
    if threads != [] {
      var last := |threads| - 1;
      SumNonNegative(threads[..last], f);
      forall t | 0 <= t < last ensures f(threads[t]) <= Sum(threads, f) {
        assert threads[..last][t] == threads[t];
      }
      if Sum(threads[..last], f) > 0 {
        var t :| 0 <= t < last && f(threads[..last][t]) > 0;
        assert f(threads[t]) > 0;
      }
    }
  }

  function IsSleeper(l: Local): int { if l.Sleeping? then 1 else 0 }
  function IsCounted(l: Local): int { if l.Sleeping? || l.Working? then 1 else 0 }
  function BatchOf(l: Local): int { if l.Working? then |l.batch| else 0 }

  // ---------- the invariant ----------

  ghost predicate SomeFails(checks: seq<Check>) {
    exists c | c in checks :: !c.passes
  }

  /** A working thread's verdict agrees with the checks it has run. */
  ghost predicate WorkOk(l: Local, added: seq<Check>) {
    l.Working? ==>
      && 0 < |l.batch| && l.next <= |l.batch|
      && (forall c | c in l.batch :: c in added)
      && (l.fOk ==> forall i | 0 <= i < l.next :: l.batch[i].passes)
      && (!l.fOk ==> SomeFails(added))
  }

  ghost predicate Holds(l: Local, c: Check) {
    l.Working? && c in l.batch
  }

  /** A check still waits for its turn, in the queue or in a batch. */
  ghost predicate Pending(queue: seq<Check>, threads: seq<Local>, c: Check) {
    c in queue || exists t | 0 <= t < |threads| :: Holds(threads[t], c)
  }

  /** What the history promises: while fAllOk holds, every failing check is still pending. */
  ghost predicate HistoryOk(s: State) {
    && (forall c | c in s.queue :: c in s.added)
    && (forall c | c in s.added && !c.passes && s.fAllOk :: Pending(s.queue, s.threads, c))
    && (!s.fAllOk ==> SomeFails(s.added))
    && (forall t | 0 <= t < |s.threads| :: WorkOk(s.threads[t], s.added))
  }

  ghost predicate TodoOk(s: State) {
    s.nTodo == |s.queue| + Sum(s.threads, BatchOf)
  }

  ghost predicate MasterOk(s: State) {
    |s.threads| > MASTER && (s.threads[MASTER].Sleeping? ==> s.queue == [] && (s.threads[MASTER].woken <==> s.nTodo == 0))
  }

  /** nTodo counts queued and in-flight checks, nIdle the sleepers, nTotal the threads in Loop. */
  ghost predicate Inv(s: State) {
    && HistoryOk(s) && TodoOk(s) && MasterOk(s)
    && s.nIdle == Sum(s.threads, IsSleeper) && s.nTotal == Sum(s.threads, IsCounted)
  }

  /** As Inv, while thread t holds the lock. */
  ghost predicate InLock(s: State, t: nat) {
    && HistoryOk(s) && TodoOk(s) && MasterOk(s)
    && t < |s.threads| && s.threads[t].Entering?
    && s.nIdle == Sum(s.threads, IsSleeper) && s.nTotal == Sum(s.threads, IsCounted) + 1
  }

  // ---------- every step keeps the invariant ----------

  lemma ReversedSame(q: seq<Check>)
    ensures forall c :: c in Reversed(q) <==> c in q
  {
    forall c | c in q ensures c in Reversed(q) {
      var i :| 0 <= i < |q| && q[i] == c;
      assert Reversed(q)[|q| - 1 - i] == c;
    }
  }

  /** A thread that holds the lock takes at least one check and no more than there are. */
  lemma BatchFits(s: State, t: nat)
    requires InLock(s, t) && s.queue != []
    ensures s.nTotal + s.nIdle + 1 > 0 && 1 <= BatchSize(s) <= |s.queue|
  {
    SumNonNegative(s.threads, IsSleeper);
    SumNonNegative(s.threads, IsCounted);
    NonLinear.DivLess(|s.queue|, s.nTotal + s.nIdle + 1);
  }

  /** The effect of one thread's move on the counts. */
  lemma Recount(threads: seq<Local>, t: nat, l: Local)
    requires t < |threads|
    ensures Sum(threads[t := l], IsSleeper) == Sum(threads, IsSleeper) - IsSleeper(threads[t]) + IsSleeper(l)
    ensures Sum(threads[t := l], IsCounted) == Sum(threads, IsCounted) - IsCounted(threads[t]) + IsCounted(l)
    ensures Sum(threads[t := l], BatchOf) == Sum(threads, BatchOf) - BatchOf(threads[t]) + BatchOf(l)
  {
    SumUpdate(threads, IsSleeper, t, l);
    SumUpdate(threads, IsCounted, t, l);
    SumUpdate(threads, BatchOf, t, l);
  }

  /** Moving checks between the queue and a thread that holds none loses no failing check. */
  lemma StillPending(queue: seq<Check>, queue': seq<Check>, threads: seq<Local>, t: nat, l: Local, c: Check)
    requires t < |threads| && !threads[t].Working? && Pending(queue, threads, c)
    requires c in queue ==> c in queue' || Holds(l, c)
    ensures Pending(queue', threads[t := l], c)
  {
    var after := threads[t := l];
    assert after[t] == l;
    if c !in queue {
      var u :| 0 <= u < |threads| && Holds(threads[u], c);
      assert after[u] == threads[u];
    }
  }

  lemma TakeKeepsInv(s: State, t: nat, s': State)
    requires InLock(s, t) && s.queue != [] && Proceed(s, t, s')
    ensures Inv(s')
  {
    BatchFits(s, t);
    var nNow := BatchSize(s);
    var rest, taken := s.queue[..|s.queue| - nNow], s.queue[|s.queue| - nNow..];
    var l := Working(Reversed(taken), 0, s.fAllOk);
    assert s.queue == rest + taken;
    ReversedSame(taken);
    Recount(s.threads, t, l);
    forall c | c in s'.added && !c.passes && s'.fAllOk ensures Pending(s'.queue, s'.threads, c) {
      StillPending(s.queue, rest, s.threads, t, l, c);
    }
  }

  lemma SleepKeepsInv(s: State, t: nat, s': State)
    requires InLock(s, t) && s.queue == [] && !(t == MASTER && s.nTodo == 0) && Proceed(s, t, s')
    ensures Inv(s')
  {
    Recount(s.threads, t, Sleeping(false));
    SumNonNegative(s.threads, BatchOf);
    forall c | c in s'.added && !c.passes && s'.fAllOk ensures Pending(s'.queue, s'.threads, c) {
      StillPending([], [], s.threads, t, Sleeping(false), c);
    }
  }

  ghost predicate NobodyWorks(threads: seq<Local>) {
    forall t | 0 <= t < |threads| :: !threads[t].Working?
  }

  lemma NothingInFlight(threads: seq<Local>)
    requires Sum(threads, BatchOf) == 0 && forall t | 0 <= t < |threads| :: threads[t].Working? ==> 0 < |threads[t].batch|
    ensures NobodyWorks(threads)
  {
    SumNonNegative(threads, BatchOf);
  }

  /** Wait's answer is exact: it returns with nothing queued or in flight, and its result says
      whether every check added since the last Wait passes. */
  lemma ReturnIsExact(s: State, s': State)
    requires InLock(s, MASTER) && s.queue == [] && s.nTodo == 0 && Proceed(s, MASTER, s')
    ensures Inv(s') && s'.threads[MASTER].Outside? && s'.queue == []
    ensures NobodyWorks(s'.threads)
    ensures s.fAllOk <==> forall c | c in s.added :: c.passes
  {
    Recount(s.threads, MASTER, Outside);
    NothingInFlight(s.threads);
  }

  lemma ProceedKeepsInv(s: State, t: nat, s': State)
    requires InLock(s, t) && Proceed(s, t, s')
    ensures Inv(s')
  {
    if s.queue != [] {
      TakeKeepsInv(s, t, s');
    } else if t == MASTER && s.nTodo == 0 {
      ReturnIsExact(s, s');
    } else {
      SleepKeepsInv(s, t, s');
    }
  }

  /** After the clean-up the lock is held in good order. */
  lemma EntryKeepsInv(s: State, t: nat)
    requires Inv(s) && t < |s.threads| && s.threads[t].Entering?
    ensures InLock(CleanUp(s, t), t)
  {
  }

  lemma FinishKeepsInv(s: State, t: nat)
    requires Inv(s) && t < |s.threads| && s.threads[t].Working? && s.threads[t].next == |s.threads[t].batch|
    ensures InLock(CleanUp(s, t), t)
  {
    var w, s' := s.threads[t], CleanUp(s, t);
    var freed := s.threads[t := Entering];
    Recount(s.threads, t, Entering);
    SumNonNegative(freed, BatchOf);
    NotifyKeeps(freed);
    assert WorkOk(w, s.added);
    if s'.fAllOk {
      forall c | c in s'.added && !c.passes ensures Pending(s'.queue, s'.threads, c) {
        BatchDone(s.queue, s.threads, t, c);
        Unmoved(s.queue, freed, s'.threads, c);
      }
    }
  }

  lemma NotifyKeeps(threads: seq<Local>)
    requires |threads| > MASTER
    ensures Sum(NotifyMaster(threads), IsSleeper) == Sum(threads, IsSleeper)
    ensures Sum(NotifyMaster(threads), IsCounted) == Sum(threads, IsCounted)
    ensures Sum(NotifyMaster(threads), BatchOf) == Sum(threads, BatchOf)
  {
    Recount(threads, MASTER, Sleeping(true));
  }

  /** A failing check cannot be in a batch that ran to its end with verdict true. */
  lemma BatchDone(queue: seq<Check>, threads: seq<Local>, t: nat, c: Check)
    requires t < |threads| && threads[t].Working? && Pending(queue, threads, c) && !c.passes
    requires forall i | 0 <= i < |threads[t].batch| :: threads[t].batch[i].passes
    ensures Pending(queue, threads[t := Entering], c)
  {
    if c !in queue {
      var u :| 0 <= u < |threads| && Holds(threads[u], c);
      assert u != t;
      assert Holds(threads[t := Entering][u], c);
    }
  }

  /** Waking threads moves no check. */
  lemma Unmoved(queue: seq<Check>, threads: seq<Local>, after: seq<Local>, c: Check)
    requires Pending(queue, threads, c) && |after| == |threads|
    requires forall t | 0 <= t < |threads| && threads[t].Working? :: after[t] == threads[t]
    ensures Pending(queue, after, c)
  {
    if c !in queue {
      var u :| 0 <= u < |threads| && Holds(threads[u], c);
      assert Holds(after[u], c);
    }
  }

  lemma WakeKeepsInv(s: State, t: nat)
    requires Inv(s) && t < |s.threads| && s.threads[t].Sleeping?
    ensures InLock(s.(nIdle := s.nIdle - 1, threads := s.threads[t := Entering]), t)
  {
    var s' := s.(nIdle := s.nIdle - 1, threads := s.threads[t := Entering]);
    Recount(s.threads, t, Entering);
    forall c | c in s'.added && !c.passes && s'.fAllOk ensures Pending(s'.queue, s'.threads, c) {
      StillPending(s.queue, s.queue, s.threads, t, Entering, c);
    }
  }

  lemma CallKeepsInv(s: State, t: nat)
    requires Inv(s) && t < |s.threads| && s.threads[t].Outside?
    ensures Inv(s.(threads := s.threads[t := Entering]))
  {
    var s' := s.(threads := s.threads[t := Entering]);
    Recount(s.threads, t, Entering);
    forall c | c in s'.added && !c.passes && s'.fAllOk ensures Pending(s'.queue, s'.threads, c) {
      StillPending(s.queue, s.queue, s.threads, t, Entering, c);
    }
  }

  lemma ExecuteKeepsInv(s: State, t: nat, s': State)
    requires Inv(s) && Next(s, Execute(t), s')
    ensures Inv(s')
  {
    var w := s.threads[t];
    var l := s'.threads[t];
    Recount(s.threads, t, l);
    assert WorkOk(w, s.added);
    assert WorkOk(l, s.added) by {
      if w.fOk && !l.fOk { assert w.batch[w.next] in s.added; }
    }
    forall c | c in s'.added && !c.passes && s'.fAllOk ensures Pending(s'.queue, s'.threads, c) {
      if c !in s.queue {
        var u :| 0 <= u < |s.threads| && Holds(s.threads[u], c);
        assert Holds(s'.threads[u], c);
      }
    }
  }

  lemma AddKeepsInv(s: State, checks: seq<Check>, woken: seq<Local>, s': State)
    requires Inv(s) && Next(s, Add(checks, woken), s')
    ensures Inv(s')
  {
    SumSame(s.threads, woken, IsSleeper);
    SumSame(s.threads, woken, IsCounted);
    SumSame(s.threads, woken, BatchOf);
    forall c | c in s'.added && !c.passes && s'.fAllOk ensures Pending(s'.queue, s'.threads, c) {
      if c in s.added {
        Unmoved(s.queue, s.threads, woken, c);
        if c !in s.queue { var u :| 0 <= u < |woken| && Holds(woken[u], c); }
      }
    }
    forall t | 0 <= t < |woken| ensures WorkOk(woken[t], s'.added) {
      if woken[t].Working? { assert WorkOk(s.threads[t], s.added); FailsStays(s.added, checks); }
    }
    FailsStays(s.added, checks);
  }

  lemma FailsStays(added: seq<Check>, more: seq<Check>)
    ensures SomeFails(added) ==> SomeFails(added + more)
  {
    if c :| c in added && !c.passes { assert c in added + more; }
  }

  /** Every step of every thread keeps the invariant. */
  lemma StepKeepsInv(s: State, e: Event, s': State)
    requires Inv(s) && Next(s, e, s')
    ensures Inv(s')
  {
    match e
    case Call(t) => CallKeepsInv(s, t);
    case Add(checks, woken) => AddKeepsInv(s, checks, woken, s');
    case Critical(t) =>
      if s.threads[t].Entering? { EntryKeepsInv(s, t); } else { FinishKeepsInv(s, t); }
      ProceedKeepsInv(CleanUp(s, t), t, s');
    case Wake(t) =>
      WakeKeepsInv(s, t);
      ProceedKeepsInv(s.(nIdle := s.nIdle - 1, threads := s.threads[t := Entering]), t, s');
    case Execute(t) => ExecuteKeepsInv(s, t, s');
  }

  ghost predicate IsRun(states: seq<State>, events: seq<Event>) {
    && |states| == |events| + 1
    && |states[0].threads| > MASTER && states[0] == Initial(|states[0].threads|, states[0].nBatchSize)
    && forall i | 0 <= i < |events| :: Next(states[i], events[i], states[i + 1])
  }

  lemma {:induction false} InitialSums(n: nat, f: Local -> int)
    requires f(Outside) == 0
    ensures Sum(seq(n, _ => Outside), f) == 0
    decreases n
  {
    if n > 0 {
      assert seq(n, _ => Outside)[..n - 1] == seq(n - 1, _ => Outside);
      InitialSums(n - 1, f);
    }
  }

  /** The invariant holds in every state of every run. */
  lemma {:induction false} RunKeepsInv(states: seq<State>, events: seq<Event>, i: nat)
    requires IsRun(states, events) && i < |states|
    ensures Inv(states[i])
    decreases i
  {
    if i == 0 {
      var n := |states[0].threads|;
      InitialSums(n, IsSleeper);
      InitialSums(n, IsCounted);
      InitialSums(n, BatchOf);
    } else {
      RunKeepsInv(states, events, i - 1);
      StepKeepsInv(states[i - 1], events[i - 1], states[i]);
    }
  }

  // ---------- what the master can rely on ----------

  /** The state right after thread t has taken the lock and cleaned up. */
  function AtLock(s: State, e: Event): State
    requires (e.Critical? || e.Wake?) && e.t < |s.threads|
  {
    if e.Critical? then CleanUp(s, e.t) else s.(nIdle := s.nIdle - 1, threads := s.threads[e.t := Entering])
  }

  /** The step by which Wait returns; its result is fAllOk at that moment. */
  ghost predicate Returns(s: State, e: Event, s': State) {
    && (e == Critical(MASTER) || e == Wake(MASTER)) && Next(s, e, s')
    && |s.threads| > MASTER && s'.threads[MASTER].Outside?
  }

  /** In every run, Wait returns true exactly when every check added since the last Wait
      passes, and nothing is left in the queue or in a batch. */
  lemma WaitIsExact(states: seq<State>, events: seq<Event>, i: nat)
    requires IsRun(states, events) && i < |events| && Returns(states[i], events[i], states[i + 1])
    ensures AtLock(states[i], events[i]).fAllOk <==> forall c | c in states[i].added :: c.passes
    ensures states[i + 1].queue == [] && states[i + 1].nTodo == 0
    ensures NobodyWorks(states[i + 1].threads)
  {
    var s, s' := states[i], states[i + 1];
    RunKeepsInv(states, events, i);
    if events[i].Wake? {
      WakeKeepsInv(s, MASTER);
    } else if s.threads[MASTER].Entering? {
      EntryKeepsInv(s, MASTER);
    } else {
      FinishKeepsInv(s, MASTER);
    }
    ReturnIsExact(AtLock(s, events[i]), s');
  }

  /** The master sleeps without a pending wake-up only while some worker holds a batch. */
  lemma SleepingMasterHasWorker(s: State)
    requires Inv(s) && s.threads[MASTER] == Sleeping(false)
    ensures s.queue == [] && exists t | MASTER < t < |s.threads| :: s.threads[t].Working?
  {
    SumNonNegative(s.threads, BatchOf);
    var t :| 0 <= t < |s.threads| && BatchOf(s.threads[t]) > 0;
    assert t != MASTER;
  }

  /** And it is woken exactly when no check is queued or in flight. */
  lemma WokenWhenDone(s: State)
    requires Inv(s) && s.threads[MASTER].Sleeping?
    ensures s.threads[MASTER].woken <==> s.queue == [] && forall t | 0 <= t < |s.threads| :: BatchOf(s.threads[t]) == 0
  {
    SumNonNegative(s.threads, BatchOf);
  }

  // ---------- termination of Wait ----------

  /** A step other than adding work, starting a thread or waking without a notification. */
  ghost predicate IsWork(s: State, e: Event) {
    match e
    case Call(_) => false
    case Add(_, _) => false
    case Critical(_) => true
    case Wake(t) => t < |s.threads| && s.threads[t] == Sleeping(true)
    case Execute(_) => true
  }

  function Effort(l: Local): int {
    match l
    case Outside => 0
    case Entering => 2
    case Sleeping(woken) => if woken then 1 else 0
    case Working(batch, next, _) => |batch| - next + 3
  }

  ghost function Measure(s: State): int {
    5 * |s.queue| + Sum(s.threads, Effort)
  }

  lemma MeasureNonNegative(s: State)
    requires Inv(s)
    ensures Measure(s) >= 0
  {
    forall t | 0 <= t < |s.threads| ensures Effort(s.threads[t]) >= 0 {
      assert WorkOk(s.threads[t], s.added);
    }
    SumNonNegative(s.threads, Effort);
  }

  lemma ProceedMeasure(s: State, t: nat, s': State)
    requires InLock(s, t) && Proceed(s, t, s')
    ensures Measure(s') <= Measure(s) - 2 && (s.queue != [] ==> Measure(s') <= Measure(s) - 3)
  {
    SumUpdate(s.threads, Effort, t, s'.threads[t]);
    if s.queue != [] {
      BatchFits(s, t);
      ReversedSame(s.queue[|s.queue| - BatchSize(s)..]);
    }
  }

  /** Every working step uses up effort, so no schedule can go on for ever without new checks
      or unnotified wake-ups. */
  lemma WorkDecreases(s: State, e: Event, s': State)
    requires Inv(s) && Next(s, e, s') && IsWork(s, e)
    ensures Measure(s') < Measure(s)
  {
    match e
    case Execute(t) =>
      SumUpdate(s.threads, Effort, t, s'.threads[t]);
    case Wake(t) =>
      WakeKeepsInv(s, t);
      SumUpdate(s.threads, Effort, t, Entering);
      ProceedMeasure(AtLock(s, e), t, s');
    case Critical(t) =>
      SumUpdate(s.threads, Effort, t, Entering);
      if s.threads[t].Entering? {
        EntryKeepsInv(s, t);
      } else {
        FinishKeepsInv(s, t);
        if s.threads[t := Entering][MASTER].Sleeping? {
          SumUpdate(s.threads[t := Entering], Effort, MASTER, Sleeping(true));
        }
      }
      ProceedMeasure(AtLock(s, e), t, s');
  }

  /** Until Wait has returned, some thread can always take a working step. */
  lemma WaitProgresses(s: State) returns (e: Event, s': State)
    requires Inv(s) && !s.threads[MASTER].Outside?
    ensures IsWork(s, e) && Next(s, e, s')
  {
    if s.threads[MASTER] == Sleeping(false) {
      SleepingMasterHasWorker(s);
      var t :| MASTER < t < |s.threads| && s.threads[t].Working?;
      e, s' := CanStep(s, t);
    } else {
      e, s' := CanStep(s, MASTER);
    }
  }

  /** A stretch of working steps from a given state on. */
  ghost predicate IsWorkRun(states: seq<State>, events: seq<Event>) {
    && |states| == |events| + 1
    && forall i | 0 <= i < |events| :: IsWork(states[i], events[i]) && Next(states[i], events[i], states[i + 1])
  }

  /** No thread can take a working step. */
  ghost predicate AtRest(s: State) {
    forall e, s' :: Next(s, e, s') ==> !IsWork(s, e)
  }

  lemma {:induction false} WorkRunBound(states: seq<State>, events: seq<Event>)
    requires IsWorkRun(states, events) && Inv(states[0])
    ensures Inv(states[|events|]) && |events| <= Measure(states[0]) - Measure(states[|events|])
    decreases |events|
  {
    if events != [] {
      var last := |events| - 1;
      WorkRunBound(states[..last + 1], events[..last]);
      StepKeepsInv(states[last], events[last], states[last + 1]);
      WorkDecreases(states[last], events[last], states[last + 1]);
    }
  }

  /** Wait gets its answer: from any state of any run, however the threads are scheduled, there are
      at most Measure many working steps, and when no more can be taken Wait has returned. */
  lemma WaitReturns(states: seq<State>, events: seq<Event>, i: nat, after: seq<State>, work: seq<Event>)
    requires IsRun(states, events) && i < |states| && IsWorkRun(after, work) && after[0] == states[i]
    ensures |work| <= Measure(states[i])
    ensures Inv(after[|work|]) && (AtRest(after[|work|]) ==> after[|work|].threads[MASTER].Outside?)
  {
    RunKeepsInv(states, events, i);
    WorkRunBound(after, work);
    var s := after[|work|];
    MeasureNonNegative(s);
    if !s.threads[MASTER].Outside? {
      var e, s' := WaitProgresses(s);
    }
  }

  lemma CanStep(s: State, t: nat) returns (e: Event, s': State)
    requires Inv(s) && t < |s.threads| && s.threads[t] != Outside && s.threads[t] != Sleeping(false)
    ensures IsWork(s, e) && Next(s, e, s')
  {
    match s.threads[t]
    case Entering =>
      EntryKeepsInv(s, t);
      e, s' := Critical(t), CanProceed(CleanUp(s, t), t);
    case Sleeping(_) =>
      WakeKeepsInv(s, t);
      e, s' := Wake(t), CanProceed(AtLock(s, Wake(t)), t);
    case Working(batch, next, fOk) =>
      assert WorkOk(s.threads[t], s.added);
      if next < |batch| {
        e, s' := Execute(t), s.(threads := s.threads[t := Working(batch, next + 1, fOk && batch[next].passes)]);
      } else {
        FinishKeepsInv(s, t);
        e, s' := Critical(t), CanProceed(CleanUp(s, t), t);
      }
  }

  ghost function CanProceed(s: State, t: nat): (s': State)
    requires InLock(s, t)
    ensures Proceed(s, t, s')
  {
    if s.queue != [] then
      BatchFits(s, t);
      var nNow := BatchSize(s);
      s.(queue := s.queue[..|s.queue| - nNow], threads := s.threads[t := Working(Reversed(s.queue[|s.queue| - nNow..]), 0, s.fAllOk)])
    else if t == MASTER && s.nTodo == 0 then
      s.(nTotal := s.nTotal - 1, fAllOk := true, threads := s.threads[t := Outside], added := [])
    else
      s.(nIdle := s.nIdle + 1, threads := s.threads[t := Sleeping(false)])
  }
}
