/** The parallel check queue: workers and a master share a queue under one lock, take
    batches, evaluate them outside the lock, and report back.

    `CCheckQueue` holds the shared fields; each of its methods is one critical section.
    `State` adds what every thread is doing, and a run interleaves critical sections and
    single evaluations in any order. */
module CheckQueue {

  /** A check and what evaluating it returns. */
  datatype Check = Check(id: nat, ok: bool)

  datatype Shared = Shared(
    queue: seq<Check>, nIdle: int, nTotal: int, fAllOk: bool, nTodo: int, fQuit: bool, nBatchSize: nat)

  /** How a critical section of Loop ends: by returning, waiting, or with work to do. */
  datatype Outcome = Return(fRet: bool) | Wait | Work(batch: seq<Check>, fOk: bool)

  datatype Wake = WakeNone | WakeOne | WakeAll

  // ---------------------------------------------------------------- critical sections

  function AddSection(s: Shared, checks: seq<Check>): (Shared, Wake) {
    (s.(queue := s.queue + checks, nTodo := s.nTodo + |checks|),
     if |checks| == 0 then WakeNone else if |checks| == 1 then WakeOne else WakeAll)
  }

  /** The clean-up of the previous round of the loop, or the registration on the first; the
      flag says whether the master is notified. */
  function CleanUp(s: Shared, fMaster: bool, nNow: nat, fOk: bool): (Shared, bool) {
    if nNow > 0 then
      var t := s.(fAllOk := s.fAllOk && fOk, nTodo := s.nTodo - nNow);
      (t, t.nTodo == 0 && !fMaster)
    else (s.(nTotal := s.nTotal + 1), false)
  }

  /** What IsIdle looks at; IdleExactly says what it means. */
  predicate SeemsIdle(s: Shared) { s.nTotal == s.nIdle && s.nTodo == 0 && s.fAllOk }

  function BatchSize(s: Shared): (n: nat)
    requires s.queue != [] && s.nTotal >= 0 && s.nIdle >= 0
    ensures 1 <= n <= |s.queue| && (n <= s.nBatchSize || n == 1)
  {
    var share := |s.queue| / (s.nTotal + s.nIdle + 1);
    DivideSmaller(|s.queue|, s.nTotal + s.nIdle + 1);
    var m := if s.nBatchSize < share then s.nBatchSize else share;
    if m > 1 then m else 1
  }

  lemma DivideSmaller(a: nat, b: nat)
    requires b >= 1
    ensures 0 <= a / b <= a
  {
    var q := a / b;
    assert q >= 0 && a == b * q + a % b;
    Product(b - 1, q);
    assert b * q == (b - 1) * q + q;
  }

  lemma Product(x: nat, y: nat)
    ensures x * y >= 0
  {
  }

  /** The last `n` checks of the queue, last first. */
  function Taken(queue: seq<Check>, n: nat): (r: seq<Check>)
    requires n <= |queue|
    ensures |r| == n
    ensures forall k :: 0 <= k < n ==> r[k] == queue[|queue| - 1 - k]
  {
    if n == 0 then [] else Taken(queue, n - 1) + [queue[|queue| - n]]
  }

  /** From "logically, the do loop starts here" to the release of the lock. */
  function LoopTop(s: Shared, fMaster: bool): (Shared, Outcome)
    requires s.nTotal >= 0 && s.nIdle >= 0
  {
    if s.queue == [] then
      if (fMaster || s.fQuit) && s.nTodo == 0 then
        (s.(nTotal := s.nTotal - 1, fAllOk := fMaster || s.fAllOk), Return(s.fAllOk))
      else (s.(nIdle := s.nIdle + 1), Wait)
    else
      var n := BatchSize(s);
      (s.(queue := s.queue[..|s.queue| - n]), Work(Taken(s.queue, n), s.fAllOk))
  }

  class CCheckQueue {
    var queue: seq<Check>
    var nIdle: int
    var nTotal: int
    var fAllOk: bool
    var nTodo: int
    var fQuit: bool
    const nBatchSize: nat

    ghost function Abs(): Shared
      reads this
    {
      Shared(queue, nIdle, nTotal, fAllOk, nTodo, fQuit, nBatchSize)
    }

    constructor (nBatchSizeIn: nat)
      ensures Abs() == Shared([], 0, 0, true, 0, false, nBatchSizeIn)
    {
      queue, nIdle, nTotal, fAllOk, nTodo, fQuit := [], 0, 0, true, 0, false;
      nBatchSize := nBatchSizeIn;
    }

    method Add(vChecks: seq<Check>) returns (wake: Wake)
      modifies this`queue, this`nTodo
      ensures (Abs(), wake) == AddSection(old(Abs()), vChecks)
    {
      for i := 0 to |vChecks|
        invariant queue == old(queue) + vChecks[..i] && nTodo == old(nTodo)
      {
        queue := queue + [vChecks[i]];
      }
      assert vChecks[..|vChecks|] == vChecks;
      nTodo := nTodo + |vChecks|;
      wake := if |vChecks| == 1 then WakeOne else if |vChecks| > 1 then WakeAll else WakeNone;
    }

    /** The section entered at the start of a round of the loop. */
    method Section(fMaster: bool, nNow: nat, fOk: bool) returns (notifyMaster: bool, r: Outcome)
      requires nTotal >= 0 && nIdle >= 0
      modifies this
      ensures var (s, notify) := CleanUp(old(Abs()), fMaster, nNow, fOk);
              notifyMaster == notify && (Abs(), r) == LoopTop(s, fMaster)
    {
      notifyMaster := false;
      if nNow > 0 {
        fAllOk := fAllOk && fOk;
        nTodo := nTodo - nNow;
        if nTodo == 0 && !fMaster {
          notifyMaster := true;
        }
      } else {
        nTotal := nTotal + 1;
      }
      r := Top(fMaster);
    }

    /** The section entered when a wait ends. */
    method WakeSection(fMaster: bool) returns (r: Outcome)
      requires nTotal >= 0 && nIdle >= 1
      modifies this
      ensures (Abs(), r) == LoopTop(old(Abs()).(nIdle := old(nIdle) - 1), fMaster)
    {
      nIdle := nIdle - 1;
      r := Top(fMaster);
    }

    method Top(fMaster: bool) returns (r: Outcome)
      requires nTotal >= 0 && nIdle >= 0
      modifies this
      ensures (Abs(), r) == LoopTop(old(Abs()), fMaster)
    {
      if |queue| == 0 {
        if (fMaster || fQuit) && nTodo == 0 {
          nTotal := nTotal - 1;
          r := Return(fAllOk);
          if fMaster {
            fAllOk := true;
          }
        } else {
          nIdle := nIdle + 1;
          r := Wait;
        }
        return;
      }
      ghost var s := Abs();
      DivideSmaller(|queue|, nTotal + nIdle + 1);
      var share := |queue| / (nTotal + nIdle + 1);
      var nNow := if nBatchSize < share then nBatchSize else share;
      if nNow < 1 {
        nNow := 1;
      }
      assert nNow == BatchSize(s);
      var vChecks := [];
      for i := 0 to nNow
        invariant Abs() == s.(queue := s.queue[..|s.queue| - i]) && vChecks == Taken(s.queue, i)
      {
        vChecks := vChecks + [queue[|queue| - 1]];
        queue := queue[..|queue| - 1];
      }
      r := Work(vChecks, fAllOk);
    }

    method IsIdle() returns (idle: bool)
      ensures idle == SeemsIdle(Abs())
    {
      idle := nTotal == nIdle && nTodo == 0 && fAllOk == true;
    }
  }

  // ---------------------------------------------------------------- the whole system

  /** Where a thread is. */
  datatype Local =
    | Outside
    | Ready(nNow: nat, fOk: bool)  // about to take the lock at the start of a round of the loop
    | Waiting
    | Woken
    | Working(batch: seq<Check>, done: nat, fOk: bool)

  /** Thread 0 is the master; `round` lists the checks added since its last Wait returned. */
  datatype State = State(sh: Shared, threads: seq<Local>, round: seq<Check>)

  const MASTER := 0

  datatype Action =
    | Adds(checks: seq<Check>, woken: nat)  // `woken`: the waiter that notify_one picks
    | Enters(tid: nat)
    | TakesLock(tid: nat)
    | Evaluates(tid: nat)
    | Finishes(tid: nat)
    | WakesUp(tid: nat)  // a spurious wake-up

  predicate Enabled(s: State, a: Action) {
    match a
    case Adds(checks, woken) =>
      && |s.threads| > 0 && s.threads[MASTER] == Outside
      && (|checks| == 1 && (exists t :: 0 < t < |s.threads| && s.threads[t] == Waiting) ==>
            0 < woken < |s.threads| && s.threads[woken] == Waiting)
    case Enters(tid) => tid < |s.threads| && s.threads[tid] == Outside
    case TakesLock(tid) => tid < |s.threads| && (s.threads[tid].Ready? || s.threads[tid].Woken?)
    case Evaluates(tid) => tid < |s.threads| && s.threads[tid].Working? && s.threads[tid].done < |s.threads[tid].batch|
    case Finishes(tid) => tid < |s.threads| && s.threads[tid].Working? && s.threads[tid].done >= |s.threads[tid].batch|
    case WakesUp(tid) => tid < |s.threads| && s.threads[tid] == Waiting
  }

  function Notified(l: Local): Local { if l == Waiting then Woken else l }

  function NotifyOne(threads: seq<Local>, t: nat): seq<Local> {
    if t < |threads| then threads[t := Notified(threads[t])] else threads
  }

  function NotifyWorkers(threads: seq<Local>): seq<Local> {
    seq(|threads|, k requires 0 <= k < |threads| => if k == MASTER then threads[k] else Notified(threads[k]))
  }

  function After(r: Outcome): Local {
    match r
    case Return(_) => Outside
    case Wait => Waiting
    case Work(batch, fOk) => Working(batch, 0, fOk)
  }

  /** The critical section thread `tid` is about to run: the shared fields after it, whether
      it notifies the master, and how it ends. */
  function Section(s: State, tid: nat): (Shared, bool, Outcome)
    requires Enabled(s, TakesLock(tid)) && s.sh.nTotal >= 0 && s.sh.nIdle >= 0
    requires s.threads[tid].Woken? ==> s.sh.nIdle > 0
  {
    match s.threads[tid]
    case Ready(nNow, fOk) =>
      var (c, notify) := CleanUp(s.sh, tid == MASTER, nNow, fOk);
      var (t, r) := LoopTop(c, tid == MASTER);
      (t, notify, r)
    case _ =>
      var (t, r) := LoopTop(s.sh.(nIdle := s.sh.nIdle - 1), tid == MASTER);
      (t, false, r)
  }

  function Locked(s: State, tid: nat, t: Shared, notify: bool, r: Outcome): State
    requires tid < |s.threads|
  {
    var threads := if notify then NotifyOne(s.threads, MASTER) else s.threads;
    State(t, threads[tid := After(r)], if tid == MASTER && r.Return? then [] else s.round)
  }

  function Next(s: State, a: Action): State
    requires Inv(s) && Enabled(s, a)
  {
    match a
    case Adds(checks, woken) =>
      var (t, wake) := AddSection(s.sh, checks);
      var threads := if wake == WakeAll then NotifyWorkers(s.threads)
                     else if wake == WakeOne && woken != MASTER then NotifyOne(s.threads, woken)
                     else s.threads;
      State(t, threads, s.round + checks)
    case Enters(tid) => s.(threads := s.threads[tid := Ready(0, true)])
    case TakesLock(tid) =>
      WokenIsIdle(s, tid);
      var (t, notify, r) := Section(s, tid);
      Locked(s, tid, t, notify, r)
    case Evaluates(tid) =>
      var l := s.threads[tid];
      s.(threads := s.threads[tid := l.(done := l.done + 1, fOk := l.fOk && l.batch[l.done].ok)])
    case Finishes(tid) => s.(threads := s.threads[tid := Ready(|s.threads[tid].batch|, s.threads[tid].fOk)])
    case WakesUp(tid) => s.(threads := s.threads[tid := Woken])
  }

  // ---------------------------------------------------------------- invariant

  function Held(l: Local): nat {
    match l
    case Working(batch, _, _) => |batch|
    case Ready(nNow, _) => nNow
    case _ => 0
  }

  function Idle(l: Local): nat { if l.Waiting? || l.Woken? then 1 else 0 }

  function Inside(l: Local): nat {
    if l.Outside? || (l.Ready? && l.nNow == 0) then 0 else 1
  }

  function Sum(ts: seq<Local>, f: Local -> nat): nat {
    if ts == [] then 0 else f(ts[0]) + Sum(ts[1..], f)
  }

  lemma {:induction false} SumSet(ts: seq<Local>, f: Local -> nat, t: nat, l: Local)
    requires t < |ts|
    ensures Sum(ts[t := l], f) == Sum(ts, f) - f(ts[t]) + f(l)
    ensures Sum(ts, f) >= f(ts[t])
  {
    if t == 0 {
      assert ts[0 := l][1..] == ts[1..];
    } else {
      SumSet(ts[1..], f, t - 1, l);
      assert ts[t := l][1..] == ts[1..][t - 1 := l];
    }
  }

  lemma {:induction false} SumSame(ts: seq<Local>, us: seq<Local>, f: Local -> nat)
    requires |ts| == |us| && forall k :: 0 <= k < |ts| ==> f(ts[k]) == f(us[k])
    ensures Sum(ts, f) == Sum(us, f)
  {
    if ts != [] {
      assert forall k :: 0 <= k < |ts[1..]| ==> f(ts[1..][k]) == f(us[1..][k]) by {
        forall k | 0 <= k < |ts[1..]| ensures f(ts[1..][k]) == f(us[1..][k]) {
          assert ts[1..][k] == ts[k + 1] && us[1..][k] == us[k + 1];
        }
      }
      SumSame(ts[1..], us[1..], f);
    }
  }

  lemma {:induction false} SumPositive(ts: seq<Local>, f: Local -> nat) returns (t: nat)
    requires Sum(ts, f) > 0
    ensures t < |ts| && f(ts[t]) > 0
  {
    if f(ts[0]) > 0 {
      t := 0;
    } else {
      t := SumPositive(ts[1..], f);
      t := t + 1;
    }
  }

  ghost predicate Bad(cs: seq<Check>) { exists k :: 0 <= k < |cs| && !cs[k].ok }

  /** What a thread holds has some failure in it that is not yet in fAllOk. */
  ghost predicate Carries(l: Local) {
    match l
    case Working(batch, done, fOk) => !fOk || (exists k :: done <= k < |batch| && !batch[k].ok)
    case Ready(nNow, fOk) => nNow > 0 && !fOk
    case _ => false
  }

  ghost predicate LocalOk(l: Local, bad: bool) {
    && (l.Working? ==> 0 < |l.batch| && l.done <= |l.batch| && (Bad(l.batch) ==> bad))
    && (Carries(l) ==> bad)
  }

  ghost predicate SomeCarries(threads: seq<Local>) {
    exists t :: 0 <= t < |threads| && Carries(threads[t])
  }

  /** The bookkeeping of the counters. */
  ghost predicate CountsOk(s: State) {
    && s.sh.nTodo == |s.sh.queue| + Sum(s.threads, Held)
    && s.sh.nIdle == Sum(s.threads, Idle)
    && s.sh.nTotal == Sum(s.threads, Inside)
  }

  /** The verdict: a failure in this round is recorded, queued or held, and nothing else is. */
  ghost predicate VerdictOk(s: State) {
    && (forall t :: 0 <= t < |s.threads| ==> LocalOk(s.threads[t], Bad(s.round)))
    && (Bad(s.sh.queue) ==> Bad(s.round))
    && (!s.sh.fAllOk ==> Bad(s.round))
    && (Bad(s.round) ==> !s.sh.fAllOk || Bad(s.sh.queue) || SomeCarries(s.threads))
  }

  ghost predicate Inv(s: State) {
    && |s.threads| > 0
    && CountsOk(s) && VerdictOk(s)
    && (s.threads[MASTER] == Waiting ==> s.sh.queue == [] && s.sh.nTodo != 0)
  }

  lemma WokenIsIdle(s: State, tid: nat)
    requires CountsOk(s) && tid < |s.threads|
    ensures s.sh.nIdle >= Idle(s.threads[tid])
    ensures s.sh.nTodo >= |s.sh.queue| + Held(s.threads[tid])
  {
    SumSet(s.threads, Idle, tid, Outside);
    SumSet(s.threads, Held, tid, Outside);
  }

  // ---------------------------------------------------------------- every step keeps it

  lemma LocalStep(s: State, tid: nat, l: Local)
    requires Inv(s) && tid < |s.threads|
    requires Held(l) == Held(s.threads[tid]) && Idle(l) == Idle(s.threads[tid]) && Inside(l) == Inside(s.threads[tid])
    requires LocalOk(l, Bad(s.round)) && (Carries(s.threads[tid]) ==> Carries(l))
    requires tid == MASTER && l == Waiting ==> s.threads[tid] == Waiting
    ensures Inv(s.(threads := s.threads[tid := l]))
  {
    SumSet(s.threads, Held, tid, l);
    SumSet(s.threads, Idle, tid, l);
    SumSet(s.threads, Inside, tid, l);
    CarriesStep(s.threads, tid, l);
  }

  lemma CarriesStep(ts: seq<Local>, tid: nat, l: Local)
    requires tid < |ts| && (Carries(ts[tid]) ==> Carries(l))
    ensures SomeCarries(ts) ==> SomeCarries(ts[tid := l])
  {
    if t :| 0 <= t < |ts| && Carries(ts[t]) {
      assert Carries(ts[tid := l][t]);
    }
  }

  lemma EvaluatesOk(l: Local, bad: bool)
    requires l.Working? && l.done < |l.batch| && LocalOk(l, bad)
    ensures var m := l.(done := l.done + 1, fOk := l.fOk && l.batch[l.done].ok);
            LocalOk(m, bad) && (Carries(l) ==> Carries(m))
  {
    var m := l.(done := l.done + 1, fOk := l.fOk && l.batch[l.done].ok);
    if Carries(l) && l.fOk && m.fOk {
      var k :| l.done <= k < |l.batch| && !l.batch[k].ok;
      assert m.done <= k < |m.batch| && !m.batch[k].ok;
    }
    if Carries(m) && m.fOk {
      var k :| m.done <= k < |m.batch| && !m.batch[k].ok;
    }
  }

  /** Waking workers up changes nothing the invariant speaks of. */
  lemma NotifyKeeps(s: State, threads: seq<Local>)
    requires Inv(s) && |threads| == |s.threads|
    requires forall k :: 0 <= k < |threads| ==> threads[k] == s.threads[k] || threads[k] == Notified(s.threads[k])
    ensures Inv(s.(threads := threads))
  {
    forall k | 0 <= k < |threads|
      ensures Held(threads[k]) == Held(s.threads[k]) && Idle(threads[k]) == Idle(s.threads[k])
           && Inside(threads[k]) == Inside(s.threads[k]) && (Carries(s.threads[k]) <==> Carries(threads[k]))
    {
    }
    SumSame(s.threads, threads, Held);
    SumSame(s.threads, threads, Idle);
    SumSame(s.threads, threads, Inside);
  }

  lemma AddsKeeps(s: State, checks: seq<Check>)
    requires Inv(s) && s.threads[MASTER] == Outside
    ensures Inv(State(AddSection(s.sh, checks).0, s.threads, s.round + checks))
  {
    BadAppend(s.round, checks);
    BadAppend(s.sh.queue, checks);
  }

  lemma BadAppend(a: seq<Check>, b: seq<Check>)
    ensures Bad(a + b) <==> Bad(a) || Bad(b)
  {
    if k :| 0 <= k < |a| && !a[k].ok { assert !(a + b)[k].ok; }
    if k :| 0 <= k < |b| && !b[k].ok { assert !(a + b)[|a| + k].ok; }
  }

  /** A batch and what it leaves behind have exactly the failures of the queue. */
  lemma TakenBad(queue: seq<Check>, n: nat)
    requires n <= |queue|
    ensures Bad(queue) <==> Bad(queue[..|queue| - n]) || Bad(Taken(queue, n))
  {
    var q, b := queue[..|queue| - n], Taken(queue, n);
    if k :| 0 <= k < |queue| && !queue[k].ok {
      if k < |q| { assert !q[k].ok; } else { assert !b[|queue| - 1 - k].ok; }
    }
    if k :| 0 <= k < |q| && !q[k].ok { assert !queue[k].ok; }
    if k :| 0 <= k < |b| && !b[k].ok { assert !queue[|queue| - 1 - k].ok; }
  }

  /** The clean-up accounts for what the thread held: with the thread seen as holding
      nothing, everything but the registration in nTotal is as before. */
  lemma CleanUpKeeps(s: State, tid: nat)
    requires Inv(s) && tid < |s.threads| && s.threads[tid].Ready?
    ensures var l := s.threads[tid];
            var c := CleanUp(s.sh, tid == MASTER, l.nNow, l.fOk).0;
            var u := State(c, s.threads[tid := Outside], s.round);
            && VerdictOk(u) && c.nTodo == |c.queue| + Sum(u.threads, Held)
            && c.nIdle == Sum(u.threads, Idle) && c.nTotal == Sum(u.threads, Inside) + 1
            && c.queue == s.sh.queue
  {
    var l := s.threads[tid];
    SumSet(s.threads, Held, tid, Outside);
    SumSet(s.threads, Idle, tid, Outside);
    SumSet(s.threads, Inside, tid, Outside);
    CarriesGone(s.threads, tid);
  }

  lemma WakeKeeps(s: State, tid: nat)
    requires Inv(s) && tid < |s.threads| && s.threads[tid] == Woken
    ensures var c := s.sh.(nIdle := s.sh.nIdle - 1);
            var u := State(c, s.threads[tid := Outside], s.round);
            && VerdictOk(u) && c.nTodo == |c.queue| + Sum(u.threads, Held)
            && c.nIdle == Sum(u.threads, Idle) && c.nTotal == Sum(u.threads, Inside) + 1
  {
    SumSet(s.threads, Held, tid, Outside);
    SumSet(s.threads, Idle, tid, Outside);
    SumSet(s.threads, Inside, tid, Outside);
    CarriesGone(s.threads, tid);
  }

  lemma CarriesGone(ts: seq<Local>, tid: nat)
    requires tid < |ts|
    ensures SomeCarries(ts) <==> Carries(ts[tid]) || SomeCarries(ts[tid := Outside])
  {
    if t :| 0 <= t < |ts| && Carries(ts[t]) {
      if t != tid { assert Carries(ts[tid := Outside][t]); }
    }
    var us := ts[tid := Outside];
    if t :| 0 <= t < |us| && Carries(us[t]) {
      assert Carries(ts[t]);
    }
  }

  /** The state between the two halves of a critical section, with its thread taken out. */
  ghost predicate Between(c: Shared, ts: seq<Local>, round: seq<Check>, tid: nat) {
    && tid < |ts| && ts[tid] == Outside
    && VerdictOk(State(c, ts, round)) && c.nTodo == |c.queue| + Sum(ts, Held)
    && c.nIdle == Sum(ts, Idle) && c.nTotal == Sum(ts, Inside) + 1
    && (ts[MASTER] == Waiting ==> c.queue == [] && c.nTodo != 0)
  }

  /** The second half, from a state between the two, ends in a consistent state; and when the
      master returns, its answer is whether every check of the round holds. */
  lemma TopKeeps(c: Shared, ts: seq<Local>, round: seq<Check>, tid: nat)
    requires Between(c, ts, round, tid)
    ensures c.nTotal >= 0 && c.nIdle >= 0
    ensures var (t, r) := LoopTop(c, tid == MASTER);
            && Inv(State(t, ts[tid := After(r)], if tid == MASTER && r.Return? then [] else round))
            && (tid == MASTER && r.Return? ==> (r.fRet <==> !Bad(round)) && t.fAllOk && t.nTodo == 0 && t.queue == [])
  {
    var (t, r) := LoopTop(c, tid == MASTER);
    SumSet(ts, Held, tid, After(r));
    SumSet(ts, Idle, tid, After(r));
    SumSet(ts, Inside, tid, After(r));
    match r
    case Return(_) =>
      if tid == MASTER { NothingHeld(ts); }
      assert ts[tid := Outside] == ts;
    case Wait =>
      CarriesGone(ts[tid := Waiting], tid);
      assert ts[tid := Waiting][tid := Outside] == ts;
    case Work(batch, fOk) => WorkKeeps(c, ts, round, tid);
  }

  lemma NothingHeld(ts: seq<Local>)
    requires Sum(ts, Held) == 0
    requires forall t :: 0 <= t < |ts| ==> ts[t].Working? ==> 0 < |ts[t].batch|
    ensures forall t :: 0 <= t < |ts| ==> Held(ts[t]) == 0
    ensures !SomeCarries(ts)
  {
    forall t | 0 <= t < |ts| ensures Held(ts[t]) == 0 {
      SumSet(ts, Held, t, Outside);
    }
  }

  lemma WorkKeeps(c: Shared, ts: seq<Local>, round: seq<Check>, tid: nat)
    requires Between(c, ts, round, tid) && c.queue != [] && c.nTotal >= 0 && c.nIdle >= 0
    ensures var (t, r) := LoopTop(c, tid == MASTER);
            r.Work? && VerdictOk(State(t, ts[tid := After(r)], round))
  {
    var n := BatchSize(c);
    var batch := Taken(c.queue, n);
    TakenBad(c.queue, n);
    var l := Working(batch, 0, c.fAllOk);
    assert Carries(l) <==> !c.fAllOk || Bad(batch);
    CarriesGone(ts[tid := l], tid);
    assert ts[tid := l][tid := Outside] == ts;
  }

  ghost predicate LockPost(s: State, tid: nat, t: Shared, notify: bool, r: Outcome)
    requires tid < |s.threads|
  {
    && Inv(Locked(s, tid, t, notify, r))
    && (tid == MASTER && r.Return? ==> (r.fRet <==> !Bad(s.round)) && t.fAllOk && t.nTodo == 0 && t.queue == [])
  }

  lemma ReadyLock(s: State, tid: nat)
    requires Inv(s) && tid < |s.threads| && s.threads[tid].Ready?
    ensures s.sh.nTotal >= 0 && s.sh.nIdle >= 0
    ensures var (t, notify, r) := Section(s, tid); LockPost(s, tid, t, notify, r)
  {
    var l := s.threads[tid];
    CleanUpKeeps(s, tid);
    var (c, notify) := CleanUp(s.sh, tid == MASTER, l.nNow, l.fOk);
    var us := s.threads[tid := Outside];
    var ts := if notify then NotifyOne(us, MASTER) else us;
    NotifyBetween(c, us, ts, s.round, tid, notify);
    TopKeeps(c, ts, s.round, tid);
    NotifyCommutes(s.threads, tid, notify, After(LoopTop(c, tid == MASTER).1));
  }

  lemma NotifyCommutes(ts: seq<Local>, tid: nat, notify: bool, l: Local)
    requires tid < |ts| && (notify ==> tid != MASTER)
    ensures var us := ts[tid := Outside];
            (if notify then NotifyOne(us, MASTER) else us)[tid := l] ==
              (if notify then NotifyOne(ts, MASTER) else ts)[tid := l]
  {
  }

  lemma WokenLock(s: State, tid: nat)
    requires Inv(s) && tid < |s.threads| && s.threads[tid].Woken?
    ensures s.sh.nTotal >= 0 && s.sh.nIdle > 0
    ensures var (t, notify, r) := Section(s, tid); LockPost(s, tid, t, notify, r)
  {
    WokenIsIdle(s, tid);
    WakeKeeps(s, tid);
    var c := s.sh.(nIdle := s.sh.nIdle - 1);
    TopKeeps(c, s.threads[tid := Outside], s.round, tid);
    NotifyCommutes(s.threads, tid, false, After(LoopTop(c, tid == MASTER).1));
  }

  lemma LockKeeps(s: State, tid: nat)
    requires Inv(s) && Enabled(s, TakesLock(tid))
    ensures s.sh.nTotal >= 0 && s.sh.nIdle >= 0 && (s.threads[tid].Woken? ==> s.sh.nIdle > 0)
    ensures var (t, notify, r) := Section(s, tid); LockPost(s, tid, t, notify, r)
    ensures Inv(Next(s, TakesLock(tid)))
  {
    if s.threads[tid].Ready? { ReadyLock(s, tid); } else { WokenLock(s, tid); }
  }

  /** If the clean-up brings nTodo to 0 the master, should it wait, is woken. */
  lemma NotifyBetween(c: Shared, us: seq<Local>, ts: seq<Local>, round: seq<Check>, tid: nat, notify: bool)
    requires |us| > 0 && tid < |us| && us[tid] == Outside
    requires ts == if notify then NotifyOne(us, MASTER) else us
    requires VerdictOk(State(c, us, round)) && c.nTodo == |c.queue| + Sum(us, Held)
    requires c.nIdle == Sum(us, Idle) && c.nTotal == Sum(us, Inside) + 1
    requires us[MASTER] == Waiting ==> c.queue == [] && (c.nTodo != 0 || notify)
    ensures Between(c, ts, round, tid)
  {
    if notify {
      SumSet(us, Held, MASTER, Notified(us[MASTER]));
      SumSet(us, Idle, MASTER, Notified(us[MASTER]));
      SumSet(us, Inside, MASTER, Notified(us[MASTER]));
      CarriesStep(us, MASTER, Notified(us[MASTER]));
      assert us[MASTER := us[MASTER]] == us;
    }
  }

  /** Every step of every thread keeps the invariant. */
  lemma NextKeeps(s: State, a: Action)
    requires Inv(s) && Enabled(s, a)
    ensures Inv(Next(s, a))
  {
    match a
    case Adds(checks, woken) =>
      AddsKeeps(s, checks);
      NotifyKeeps(State(AddSection(s.sh, checks).0, s.threads, s.round + checks), Next(s, a).threads);
    case Enters(tid) => LocalStep(s, tid, Ready(0, true));
    case TakesLock(tid) => LockKeeps(s, tid);
    case Evaluates(tid) =>
      EvaluatesOk(s.threads[tid], Bad(s.round));
      var l := s.threads[tid];
      LocalStep(s, tid, l.(done := l.done + 1, fOk := l.fOk && l.batch[l.done].ok));
    case Finishes(tid) =>
      LocalStep(s, tid, Ready(|s.threads[tid].batch|, s.threads[tid].fOk));
    case WakesUp(tid) => LocalStep(s, tid, Woken);
  }

  function Start(nBatchSize: nat, fQuit: bool, nThreads: nat): State
    requires nThreads > 0
  {
    State(Shared([], 0, 0, true, 0, fQuit, nBatchSize), seq(nThreads, _ => Outside), [])
  }

  lemma StartOk(nBatchSize: nat, fQuit: bool, nThreads: nat)
    requires nThreads > 0
    ensures Inv(Start(nBatchSize, fQuit, nThreads))
  {
    var ts := Start(nBatchSize, fQuit, nThreads).threads;
    AllOutside(ts);
  }

  lemma {:induction false} AllOutside(ts: seq<Local>)
    requires forall k :: 0 <= k < |ts| ==> ts[k] == Outside
    ensures Sum(ts, Held) == 0 && Sum(ts, Idle) == 0 && Sum(ts, Inside) == 0
  {
    if ts != [] { AllOutside(ts[1..]); }
  }

  /** `states` is a run under the schedule `steps`, for any number of threads.  (Next is
      defined on states that satisfy the invariant; RunKeeps shows that all of them do.) */
  ghost predicate IsRun(states: seq<State>, steps: seq<Action>) {
    && |states| == |steps| + 1
    && (exists b, q, n: nat :: n > 0 && states[0] == Start(b, q, n))
    && forall k :: 0 <= k < |steps| && Inv(states[k]) ==>
         Enabled(states[k], steps[k]) && states[k + 1] == Next(states[k], steps[k])
  }

  lemma {:induction false} RunKeeps(states: seq<State>, steps: seq<Action>, k: nat)
    requires IsRun(states, steps) && k < |states|
    ensures Inv(states[k])
  {
    if k == 0 {
      var b, q, n: nat :| n > 0 && states[0] == Start(b, q, n);
      StartOk(b, q, n);
    } else {
      RunKeeps(states, steps, k - 1);
      NextKeeps(states[k - 1], steps[k - 1]);
    }
  }

  /** Nothing of the finished round is left for the next one to see. */
  ghost predicate Settled(s: State) {
    && s.round == [] && s.sh.fAllOk && s.sh.nTodo == 0 && s.sh.queue == []
    && |s.threads| > 0 && s.threads[MASTER] == Outside
    && forall t :: 0 <= t < |s.threads| ==> Held(s.threads[t]) == 0
  }

  /** The verdict of Wait, in every run: the master's critical section that returns answers
      true exactly when every check added since its previous return holds, whichever checks
      were skipped, and leaves nothing of the round behind. */
  lemma WaitIsExact(states: seq<State>, steps: seq<Action>, k: nat)
    requires IsRun(states, steps) && k < |steps| && steps[k] == TakesLock(MASTER)
    ensures Inv(states[k]) && Enabled(states[k], TakesLock(MASTER))
    ensures states[k].sh.nTotal >= 0 && states[k].sh.nIdle >= 0
    ensures states[k].threads[MASTER].Woken? ==> states[k].sh.nIdle > 0
    ensures Section(states[k], MASTER).2.Return? ==>
              (Section(states[k], MASTER).2.fRet <==> forall c :: c in states[k].round ==> c.ok) &&
                Settled(states[k + 1])
  {
    RunKeeps(states, steps, k);
    var s := states[k];
    LockKeeps(s, MASTER);
    if Section(s, MASTER).2.Return? {
      NothingHeld(states[k + 1].threads);
      BadMember(s.round);
    }
  }

  lemma BadMember(cs: seq<Check>)
    ensures Bad(cs) <==> !(forall c :: c in cs ==> c.ok)
  {
    if k :| 0 <= k < |cs| && !cs[k].ok { assert cs[k] in cs; }
  }

  /** While the master waits unnotified, the queue is empty and some worker holds a batch,
      finished or not, whose clean-up brings nTodo closer to 0. */
  lemma MasterIsNotForgotten(s: State) returns (t: nat)
    requires Inv(s) && s.threads[MASTER] == Waiting
    ensures s.sh.queue == [] && 0 < t < |s.threads|
    ensures 0 < Held(s.threads[t]) <= s.sh.nTodo
  {
    t := SumPositive(s.threads, Held);
    WokenIsIdle(s, t);
  }

  /** Every batch taken is between one check and the whole queue, taken from its end, last first: the largest
      within the limit that leaves as much for each thread inside and each idle one; and it is evaluated
      only as long as no check is known to have failed. */
  lemma BatchBounds(s: Shared, fMaster: bool)
    requires s.queue != [] && s.nTotal >= 0 && s.nIdle >= 0
    ensures var (t, r) := LoopTop(s, fMaster);
            && r.Work? && 1 <= |r.batch| <= |s.queue| && (|r.batch| <= s.nBatchSize || |r.batch| == 1)
            && |s.queue| == |t.queue| + |r.batch| && t.queue <= s.queue
            && multiset(s.queue) == multiset(t.queue) + multiset(r.batch)
            && (forall k :: 0 <= k < |r.batch| ==> r.batch[k] == s.queue[|s.queue| - 1 - k])
            && r.fOk == s.fAllOk && t == s.(queue := t.queue)
            && (|r.batch| == 1 || |r.batch| * (s.nTotal + s.nIdle + 1) <= |s.queue|)
            && (|r.batch| >= s.nBatchSize || (|r.batch| + 1) * (s.nTotal + s.nIdle + 1) > |s.queue|)
  {
    var n := BatchSize(s);
    TakenMultiset(s.queue, n);
    FairSize(s);
  }

  lemma FairSize(s: Shared)
    requires s.queue != [] && s.nTotal >= 0 && s.nIdle >= 0
    ensures BatchSize(s) == 1 || BatchSize(s) * (s.nTotal + s.nIdle + 1) <= |s.queue|
    ensures BatchSize(s) >= s.nBatchSize || (BatchSize(s) + 1) * (s.nTotal + s.nIdle + 1) > |s.queue|
  {
    var d := s.nTotal + s.nIdle + 1;
    var q := |s.queue| / d;
    Quotient(|s.queue|, d, q);
    if s.nBatchSize < q {
      Times(s.nBatchSize, q, d);
    } else if q == 0 {
      assert (1 + 1) * d > |s.queue|;
    }
  }

  lemma Quotient(a: nat, d: nat, q: nat)
    requires d >= 1 && q == a / d
    ensures q * d <= a < (q + 1) * d
  {
    assert a == d * q + a % d;
  }

  lemma Times(x: nat, y: nat, d: nat)
    requires x <= y
    ensures x * d <= y * d
  {
  }

  lemma {:induction false} TakenMultiset(queue: seq<Check>, n: nat)
    requires n <= |queue|
    ensures multiset(queue) == multiset(queue[..|queue| - n]) + multiset(Taken(queue, n))
  {
    if n == 0 {
      assert queue[..|queue|] == queue;
    } else {
      TakenMultiset(queue, n - 1);
      var a, b := queue[..|queue| - n], queue[..|queue| - (n - 1)];
      assert b == a + [queue[|queue| - n]];
      MovedMultiset(queue, a, b, Taken(queue, n - 1), queue[|queue| - n]);
    }
  }

  lemma {:induction false} MovedMultiset(queue: seq<Check>, a: seq<Check>, b: seq<Check>, c: seq<Check>, x: Check)
    requires b == a + [x] && multiset(queue) == multiset(b) + multiset(c)
    ensures multiset(queue) == multiset(a) + multiset(c + [x])
  {
  }

  // ---------------------------------------------------------------- who is woken

  /** Adding checks queues them for the round and changes no other thread than the workers that wait: one
      check wakes one of them, if there is one, and more wake them all. */
  lemma AddsWakes(s: State, checks: seq<Check>, woken: nat)
    requires Inv(s) && Enabled(s, Adds(checks, woken))
    ensures var t := Next(s, Adds(checks, woken));
            && t.sh == s.sh.(queue := s.sh.queue + checks, nTodo := s.sh.nTodo + |checks|)
            && t.round == s.round + checks && |t.threads| == |s.threads| && t.threads[MASTER] == s.threads[MASTER]
            && (forall k :: 0 < k < |s.threads| && s.threads[k] != Waiting ==> t.threads[k] == s.threads[k])
            && (|checks| == 0 ==> t.threads == s.threads)
            && (|checks| == 1 && (exists k :: 0 < k < |s.threads| && s.threads[k] == Waiting) ==>
                  && 0 < woken < |s.threads| && s.threads[woken] == Waiting && t.threads[woken] == Woken
                  && forall k :: 0 < k < |s.threads| && k != woken ==> t.threads[k] == s.threads[k])
            && (|checks| > 1 ==> forall k :: 0 < k < |s.threads| && s.threads[k] == Waiting ==> t.threads[k] == Woken)
  {
  }

  /** Each other step moves one thread: one that enters, wakes up or has evaluated its batch goes for the lock,
      to report what it evaluated; and a batch is evaluated check by check, up to a failure or not. */
  lemma StepsLead(s: State, tid: nat)
    requires Inv(s)
    ensures Enabled(s, Enters(tid)) ==>
              Next(s, Enters(tid)) == s.(threads := s.threads[tid := Ready(0, true)]) &&
                Enabled(Next(s, Enters(tid)), TakesLock(tid))
    ensures Enabled(s, WakesUp(tid)) ==> Enabled(Next(s, WakesUp(tid)), TakesLock(tid))
    ensures Enabled(s, Evaluates(tid)) ==>
              var (l, m) := (s.threads[tid], Next(s, Evaluates(tid)).threads[tid]);
              m.Working? && m.batch == l.batch && m.done == l.done + 1 && m.fOk == (l.fOk && l.batch[l.done].ok)
    ensures Enabled(s, Finishes(tid)) ==>
              var (l, m) := (s.threads[tid], Next(s, Finishes(tid)).threads[tid]);
              m.Ready? && m.nNow == |l.batch| && m.fOk == l.fOk && Enabled(Next(s, Finishes(tid)), TakesLock(tid))
  {
  }

  predicate Serving(l: Local) { l != Waiting && l != Outside }

  ghost predicate SomeWaits(threads: seq<Local>) { exists k :: 0 < k < |threads| && threads[k] == Waiting }

  ghost predicate SomeServes(threads: seq<Local>) { exists k :: 0 < k < |threads| && Serving(threads[k]) }

  /** No worker sleeps beside a queue that no worker is at. */
  ghost predicate QueueServed(s: State) { s.sh.queue != [] && SomeWaits(s.threads) ==> SomeServes(s.threads) }

  lemma ServedNext(s: State, a: Action)
    requires Inv(s) && Enabled(s, a) && QueueServed(s)
    ensures QueueServed(Next(s, a))
  {
    var t := Next(s, a);
    match a
    case Adds(checks, woken) => ServedAdds(s, checks, woken);
    case TakesLock(tid) => ServedLock(s, tid);
    case Enters(tid) => ServedStep(s.threads, tid, Ready(0, true));
    case Evaluates(tid) => ServedStep(s.threads, tid, t.threads[tid]);
    case Finishes(tid) => ServedStep(s.threads, tid, t.threads[tid]);
    case WakesUp(tid) => ServedStep(s.threads, tid, Woken);
  }

  lemma ServedAdds(s: State, checks: seq<Check>, woken: nat)
    requires Inv(s) && Enabled(s, Adds(checks, woken)) && QueueServed(s)
    ensures QueueServed(Next(s, Adds(checks, woken)))
  {
    AddsWakes(s, checks, woken);
    var t := Next(s, Adds(checks, woken));
    if t.sh.queue != [] && SomeWaits(t.threads) {
      var k :| 0 < k < |t.threads| && t.threads[k] == Waiting;
      assert s.threads[k] == Waiting;
      if |checks| == 1 {
        assert Serving(t.threads[woken]);
      } else {
        assert |checks| == 0;
      }
    }
  }

  /** A thread that goes on working, or comes in, leaves nobody unserved. */
  lemma ServedStep(ts: seq<Local>, tid: nat, l: Local)
    requires tid < |ts| && Serving(l)
    ensures SomeWaits(ts[tid := l]) ==> SomeWaits(ts)
    ensures SomeServes(ts) ==> SomeServes(ts[tid := l])
  {
    var us := ts[tid := l];
    if SomeWaits(us) {
      var k :| 0 < k < |us| && us[k] == Waiting;
      assert ts[k] == Waiting;
    }
    if SomeServes(ts) {
      var k :| 0 < k < |ts| && Serving(ts[k]);
      assert Serving(us[k]);
    }
  }

  lemma ServedLock(s: State, tid: nat)
    requires Inv(s) && Enabled(s, TakesLock(tid)) && QueueServed(s)
    ensures QueueServed(Next(s, TakesLock(tid)))
  {
    WokenIsIdle(s, tid);
    LockKeeps(s, tid);
    var (t, notify, r) := Section(s, tid);
    if t.queue != [] {
      assert r.Work? && !notify;
      ServedStep(s.threads, tid, After(r));
    }
  }

  /** In every run, a queue with checks in it has some worker at it, if there are workers that sleep. */
  lemma {:induction false} RunServed(states: seq<State>, steps: seq<Action>, k: nat)
    requires IsRun(states, steps) && k < |states| && states[k].sh.queue != []
    requires exists t :: 0 < t < |states[k].threads| && states[k].threads[t] == Waiting
    ensures exists t :: && 0 < t < |states[k].threads|
                        && states[k].threads[t] != Waiting && states[k].threads[t] != Outside
  {
    ServedKeeps(states, steps, k);
    assert SomeWaits(states[k].threads);
    var t :| 0 < t < |states[k].threads| && Serving(states[k].threads[t]);
  }

  lemma {:induction false} ServedKeeps(states: seq<State>, steps: seq<Action>, k: nat)
    requires IsRun(states, steps) && k < |states|
    ensures QueueServed(states[k])
  {
    if k > 0 {
      ServedKeeps(states, steps, k - 1);
      RunKeeps(states, steps, k - 1);
      ServedNext(states[k - 1], steps[k - 1]);
    }
  }

  /** How a critical section ends: with work while there is any queued; else by returning when nothing is left
      to do, for the master and, on shutdown, a worker; and else by waiting.  It notifies the master exactly
      when a worker reports the last check. */
  lemma SectionEnds(s: State, tid: nat)
    requires Inv(s) && Enabled(s, TakesLock(tid))
    ensures s.sh.nTotal >= 0 && s.sh.nIdle >= 0 && (s.threads[tid].Woken? ==> s.sh.nIdle > 0)
    ensures var (t, notify, r) := Section(s, tid);
            && (r.Work? <==> s.sh.queue != [])
            && (r.Return? <==>
                  s.sh.queue == [] && s.sh.nTodo == Held(s.threads[tid]) && (tid == MASTER || s.sh.fQuit))
            && (notify <==> tid != MASTER && 0 < Held(s.threads[tid]) == s.sh.nTodo)
            && t.fQuit == s.sh.fQuit && t.nBatchSize == s.sh.nBatchSize
  {
    WokenIsIdle(s, tid);
    LockKeeps(s, tid);
  }

  // ---------------------------------------------------------------- Wait always returns

  function Weight(l: Local): nat {
    match l
    case Working(batch, done, _) => (if done < |batch| then |batch| - done else 0) + 3
    case Ready(_, _) => 2
    case Woken => 1
    case _ => 0
  }

  function Measure(s: State): nat { 4 * |s.sh.queue| + Sum(s.threads, Weight) }

  /** The steps a thread takes by itself. */
  predicate OwnStep(a: Action) { a.TakesLock? || a.Evaluates? || a.Finishes? }

  /** Each of them uses up some of the measure, so only finitely many can follow one another. */
  lemma OwnStepsRunOut(s: State, a: Action)
    requires Inv(s) && Enabled(s, a) && OwnStep(a)
    ensures Measure(Next(s, a)) < Measure(s)
  {
    match a
    case TakesLock(tid) => LockRunsOut(s, tid);
    case Evaluates(tid) =>
      var l := s.threads[tid];
      SumSet(s.threads, Weight, tid, l.(done := l.done + 1, fOk := l.fOk && l.batch[l.done].ok));
    case Finishes(tid) =>
      SumSet(s.threads, Weight, tid, Ready(|s.threads[tid].batch|, s.threads[tid].fOk));
  }

  lemma LockRunsOut(s: State, tid: nat)
    requires Inv(s) && Enabled(s, TakesLock(tid))
    ensures Measure(Next(s, TakesLock(tid))) < Measure(s)
  {
    WokenIsIdle(s, tid);
    LockKeeps(s, tid);
    var (t, notify, r) := Section(s, tid);
    SectionCost(s, tid);
    SumSet(s.threads, Weight, tid, After(r));
    if notify {
      SumSet(s.threads, Weight, MASTER, Notified(s.threads[MASTER]));
      SumSet(NotifyOne(s.threads, MASTER), Weight, tid, After(r));
    }
  }

  /** A section that notifies finds the queue empty, and one that takes a batch shortens it. */
  lemma SectionCost(s: State, tid: nat)
    requires Inv(s) && Enabled(s, TakesLock(tid)) && s.sh.nTotal >= 0 && s.sh.nIdle >= 0
    requires s.threads[tid].Woken? ==> s.sh.nIdle > 0
    ensures var (t, notify, r) := Section(s, tid);
            && (notify ==> !r.Work? && tid != MASTER && s.threads[tid].Ready?)
            && 4 * |t.queue| + Weight(After(r)) + (if notify then 1 else 0) < 4 * |s.sh.queue| + Weight(s.threads[tid])
  {
    WokenIsIdle(s, tid);
  }

  /** The other steps that are possible while the master is in Wait add at most 2 to it. */
  lemma OtherStepsCost(s: State, a: Action)
    requires Inv(s) && Enabled(s, a) && !OwnStep(a) && s.threads[MASTER] != Outside
    ensures Measure(Next(s, a)) <= Measure(s) + 2
  {
    match a
    case Enters(tid) => SumSet(s.threads, Weight, tid, Ready(0, true));
    case WakesUp(tid) => SumSet(s.threads, Weight, tid, Woken);
  }

  /** As long as the master is in Wait, some thread can take a step by itself. */
  lemma SomeoneCanStep(s: State) returns (a: Action)
    requires Inv(s) && s.threads[MASTER] != Outside
    ensures OwnStep(a) && Enabled(s, a)
  {
    var t := MASTER;
    if s.threads[MASTER] == Waiting {
      t := MasterIsNotForgotten(s);
    }
    var l := s.threads[t];
    if l.Working? {
      a := if l.done < |l.batch| then Evaluates(t) else Finishes(t);
    } else {
      a := TakesLock(t);
    }
  }

  /** The number of steps from `i` to `j` that threads take by themselves. */
  function OwnSteps(steps: seq<Action>, i: nat, j: nat): (n: nat)
    requires i <= j <= |steps|
    ensures n <= j - i
  {
    if i == j then 0 else OwnSteps(steps, i, j - 1) + if OwnStep(steps[j - 1]) then 1 else 0
  }

  lemma {:induction false} OthersAre(steps: seq<Action>, i: nat, j: nat)
    requires i <= j <= |steps|
    ensures |set k | i <= k < j && !(steps[k].TakesLock? || steps[k].Evaluates? || steps[k].Finishes?)|
              == j - i - OwnSteps(steps, i, j)
  {
    if i < j {
      OthersAre(steps, i, j - 1);
      var before := set k | i <= k < j - 1 && !(steps[k].TakesLock? || steps[k].Evaluates? || steps[k].Finishes?);
      assert (set k | i <= k < j && !(steps[k].TakesLock? || steps[k].Evaluates? || steps[k].Finishes?))
          == before + if OwnStep(steps[j - 1]) then {} else {j - 1};
    }
  }

  /** The master is in Wait from state `i` to state `j`. */
  ghost predicate InWait(states: seq<State>, i: nat, j: nat) {
    forall k :: i <= k <= j < |states| ==> |states[k].threads| > 0 && states[k].threads[MASTER] != Outside
  }

  /** While the master is in Wait, the measure pays for every step taken. */
  lemma {:induction false} StepsArePaid(states: seq<State>, steps: seq<Action>, i: nat, j: nat)
    requires IsRun(states, steps) && i <= j < |states| && InWait(states, i, j)
    ensures OwnSteps(steps, i, j) + Measure(states[j]) <= Measure(states[i]) + 2 * (j - i - OwnSteps(steps, i, j))
    decreases j
  {
    if i < j {
      StepsArePaid(states, steps, i, j - 1);
      RunKeeps(states, steps, j - 1);
      if OwnStep(steps[j - 1]) {
        OwnStepsRunOut(states[j - 1], steps[j - 1]);
      } else {
        OtherStepsCost(states[j - 1], steps[j - 1]);
      }
    }
  }

  /** Every Wait returns.  In every run, from any state `i` on: the threads' own steps go on as
      long as the master has not left Wait, and once more steps have been taken than the measure
      and three times the number of others (threads that enter, and spurious wake-ups), it has. */
  lemma WaitReturns(states: seq<State>, steps: seq<Action>, i: nat)
    requires IsRun(states, steps) && i <= |steps|
    ensures InWait(states, i, |steps|) ==> exists a :: OwnStep(a) && Enabled(states[|steps|], a)
    ensures var others := |set k | i <= k < |steps| &&
                               !(steps[k].TakesLock? || steps[k].Evaluates? || steps[k].Finishes?)|;
            |steps| - i > Measure(states[i]) + 3 * others ==>
              exists k :: i <= k <= |steps| && |states[k].threads| > 0 && states[k].threads[MASTER] == Outside
  {
    RunKeeps(states, steps, |steps|);
    OthersAre(steps, i, |steps|);
    if InWait(states, i, |steps|) {
      var a := SomeoneCanStep(states[|steps|]);
      StepsArePaid(states, steps, i, |steps|);
    } else {
      var k :| i <= k <= |steps| && !(|states[k].threads| > 0 && states[k].threads[MASTER] != Outside);
      RunKeeps(states, steps, k);
    }
  }

  /** The others have to be counted: a worker that wakes up for nothing goes back to sleep and
      leaves everything as it was, and could do so for ever. */
  lemma WakeUpsForNothing(s: State, t: nat)
    requires Inv(s) && s.threads[MASTER] == Waiting && 0 < t < |s.threads| && s.threads[t] == Waiting
    ensures Inv(Next(s, WakesUp(t))) && Enabled(Next(s, WakesUp(t)), TakesLock(t))
    ensures Next(Next(s, WakesUp(t)), TakesLock(t)) == s
  {
    NextKeeps(s, WakesUp(t));
    var u := Next(s, WakesUp(t));
    WokenIsIdle(u, t);
    assert u.threads[t := Waiting] == s.threads;
  }

  // ---------------------------------------------------------------- IsIdle

  /** Outside Wait, IsIdle says that every check added has been evaluated and holds; the queue is
      then empty, and no thread holds a check. */
  lemma IdleExactly(s: State)
    requires Inv(s) && s.threads[MASTER] == Outside
    ensures SeemsIdle(s.sh) <==> s.sh.nTodo == 0 && forall c :: c in s.round ==> c.ok
    ensures s.sh.nTodo == 0 ==> s.sh.queue == [] && forall t :: 0 <= t < |s.threads| ==> Held(s.threads[t]) == 0
  {
    BadMember(s.round);
    if s.sh.nTodo == 0 {
      forall t | 0 <= t < |s.threads|
        ensures Held(s.threads[t]) == 0 && Inside(s.threads[t]) == Idle(s.threads[t])
      {
        WokenIsIdle(s, t);
      }
      InsideIsIdle(s.threads);
    }
  }

  lemma {:induction false} InsideIsIdle(ts: seq<Local>)
    requires forall t :: 0 <= t < |ts| ==> Inside(ts[t]) == Idle(ts[t])
    ensures Sum(ts, Inside) == Sum(ts, Idle)
  {
    if ts != [] { InsideIsIdle(ts[1..]); }
  }

  /** So it holds whenever a new round may begin. */
  lemma IdleWhenSettled(s: State)
    requires Inv(s) && Settled(s)
    ensures SeemsIdle(s.sh)
  {
    IdleExactly(s);
  }
}
