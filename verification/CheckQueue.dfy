/** The queue of script checks (`CCheckQueue`): one master and any number of workers, as steps from
    one release of the mutex to the next. */
module CheckQueue {
  import opened Primitives
  import Numerals

  /** A queued verification and what calling it gives. */
  datatype Check = Check(id: nat, passes: bool)

  predicate AllPass(checks: seq<Check>) {
    forall i | 0 <= i < |checks| :: checks[i].passes
  }

  /** The fields guarded by the mutex. */
  datatype Shared = Shared(
    queue: seq<Check>,
    nIdle: nat,
    nTotal: nat,
    allOk: bool,
    nTodo: nat,
    quit: bool,
    batchSize: nat)

  /** How a pass through the critical section ends. */
  datatype Outcome =
    | Returned(answer: bool)                    // the thread leaves the loop
    | FellAsleep                                // it waits on its condition variable
    | Took(batch: seq<Check>, ok: bool)         // it goes to work on a batch

  function BatchCount(s: Shared): (n: nat)
    requires s.queue != []
    ensures 1 <= n <= |s.queue|
  {
    var share := |s.queue| / (s.nTotal + s.nIdle + 1);
    var capped := if share < s.batchSize then share else s.batchSize;
    if capped < 1 then 1 else capped
  }

  /** A batch is an equal share of the queue for all threads and the idle ones twice, within the batch size
      and not less than one check; nothing larger would be. */
  lemma BatchIs(s: Shared)
    requires s.queue != []
    ensures var n, parts := BatchCount(s), s.nTotal + s.nIdle + 1;
            && (n == 1 || (n <= s.batchSize && n * parts <= |s.queue|))
            && (n + 1 > s.batchSize || (n + 1) * parts > |s.queue|)
  {
    ShareAtLeast(|s.queue|, s.nTotal + s.nIdle + 1, BatchCount(s));
    ShareAtLeast(|s.queue|, s.nTotal + s.nIdle + 1, BatchCount(s) + 1);
  }

  lemma ShareAtLeast(size: nat, parts: nat, n: nat)
    requires parts > 0
    ensures n <= size / parts <==> n * parts <= size
  {
    var q := size / parts;
    Numerals.RestParts(size, parts);
    if n <= q {
      Numerals.MulLess(n, q, parts);
    } else {
      Numerals.MulLess(q + 1, n, parts);
      Numerals.Distribute(q, 1, parts);
    }
  }

  function Reverse(s: seq<Check>): (r: seq<Check>)
    ensures |r| == |s|
    ensures forall i | 0 <= i < |s| :: r[i] == s[|s| - 1 - i]
  {
    if s == [] then [] else [s[|s| - 1]] + Reverse(s[..|s| - 1])
  }

  /** The head of the loop, with the mutex held: the batch comes from the back of the queue. */
  function Head(s: Shared, master: bool): (r: (Shared, Outcome))
    requires s.nTotal > 0
  {
    if s.queue != [] then
      var n := |s.queue| - BatchCount(s);
      (s.(queue := s.queue[..n]), Took(Reverse(s.queue[n..]), s.allOk))
    else if (master || s.quit) && s.nTodo == 0 then
      (s.(nTotal := s.nTotal - 1, allOk := if master then true else s.allOk), Returned(s.allOk))
    else
      (s.(nIdle := s.nIdle + 1), FellAsleep)
  }

  class Queue {
    var queue: seq<Check>
    var nIdle: nat
    var nTotal: nat
    var fAllOk: bool
    var nTodo: nat
    var fQuit: bool
    const nBatchSize: nat

    function State(): Shared
      reads this
    {
      Shared(queue, nIdle, nTotal, fAllOk, nTodo, fQuit, nBatchSize)
    }

    constructor (batchSize: nat)
      ensures State() == Shared([], 0, 0, true, 0, false, batchSize)
    {
      queue, nIdle, nTotal, fAllOk, nTodo, fQuit := [], 0, 0, true, 0, false;
      nBatchSize := batchSize;
    }

    /** From the loop head to the release of the mutex. */
    method Proceed(master: bool) returns (r: Outcome)
      requires nTotal > 0
      modifies this
      ensures (State(), r) == Head(old(State()), master)
    {
      if queue == [] {
        if (master || fQuit) && nTodo == 0 {
          nTotal := nTotal - 1;
          r := Returned(fAllOk);
          if master {
            fAllOk := true;
          }
          return;
        }
        nIdle := nIdle + 1;
        return FellAsleep;
      }
      var now := BatchCount(State());
      var checks;
      queue, checks := TakeBack(queue, now);
      r := Took(checks, fAllOk);
    }

    /** A thread enters the loop. */
    method Enter(master: bool) returns (r: Outcome)
      modifies this
      ensures (State(), r) == Head(Entered(old(State())), master)
    {
      nTotal := nTotal + 1;
      r := Proceed(master);
    }

    /** A thread comes back with a finished batch of `now` checks; also tells whether it notifies
        the master. */
    method Complete(master: bool, now: nat, ok: bool) returns (r: Outcome, notify: bool)
      requires nTotal > 0 && now <= nTodo
      modifies this
      ensures (State(), r) == Head(Completed(old(State()), now, ok), master)
      ensures notify <==> !master && old(nTodo) == now
    {
      fAllOk := fAllOk && ok;
      nTodo := nTodo - now;
      notify := nTodo == 0 && !master;
      r := Proceed(master);
    }

    /** A thread wakes up with the mutex. */
    method Resume(master: bool) returns (r: Outcome)
      requires nTotal > 0 && nIdle > 0
      modifies this
      ensures (State(), r) == Head(Resumed(old(State())), master)
    {
      nIdle := nIdle - 1;
      r := Proceed(master);
    }

    method Add(checks: seq<Check>)
      modifies this
      ensures State() == Submitted(old(State()), checks)
    {
      for i := 0 to |checks|
        invariant queue == old(queue) + checks[..i]
        invariant State() == old(State()).(queue := queue)
      {
        queue := queue + [checks[i]];
      }
      assert checks[..|checks|] == checks;
      nTodo := nTodo + |checks|;
    }

    method IsIdle() returns (r: bool)
      ensures r <==> Idle(State())
    {
      r := nTotal == nIdle && nTodo == 0 && fAllOk;
    }
  }

  /** Moves `n` checks from the back of the queue to a batch, one at a time. */
  method TakeBack(queue: seq<Check>, n: nat) returns (rest: seq<Check>, batch: seq<Check>)
    requires n <= |queue|
    ensures rest == queue[..|queue| - n] && batch == Reverse(queue[|queue| - n..])
  {
    rest, batch := queue, [];
    for i := 0 to n
      invariant rest == queue[..|queue| - i]
      invariant |batch| == i && forall k | 0 <= k < i :: batch[k] == queue[|queue| - 1 - k]
    {
      batch := batch + [rest[|rest| - 1]];
      rest := rest[..|rest| - 1];
    }
    assert batch == Reverse(queue[|queue| - n..]);
  }

  /** Runs a batch outside the mutex; once a check fails the others are skipped. */
  method Execute(batch: seq<Check>, ok: bool) returns (r: bool)
    ensures r <==> ok && AllPass(batch)
  {
    r := ok;
    for i := 0 to |batch|
      invariant r <==> ok && AllPass(batch[..i])
    {
      if r {
        r := batch[i].passes;
      }
      assert batch[..i + 1] == batch[..i] + [batch[i]];
    }
    assert batch[..|batch|] == batch;
  }

  function Entered(s: Shared): Shared {
    s.(nTotal := s.nTotal + 1)
  }

  function Completed(s: Shared, now: nat, ok: bool): Shared
    requires now <= s.nTodo
  {
    s.(allOk := s.allOk && ok, nTodo := s.nTodo - now)
  }

  function Resumed(s: Shared): Shared
    requires s.nIdle > 0
  {
    s.(nIdle := s.nIdle - 1)
  }

  function Submitted(s: Shared, checks: seq<Check>): Shared {
    s.(queue := s.queue + checks, nTodo := s.nTodo + |checks|)
  }

  predicate Idle(s: Shared) {
    s.nTotal == s.nIdle && s.nTodo == 0 && s.allOk
  }

  // ----- The threads -----

  datatype Thread =
    | Outside                                   // not in the loop
    | Sleeping
    | Busy(batch: seq<Check>, ok: bool)

  /** Thread 0 is the master. `added` are the checks since its last answer, `answers` the checks and
      results of every `Wait` that has returned. `signalled` says that the master has been notified
      since it fell asleep. */
  datatype System = System(
    shared: Shared,
    threads: seq<Thread>,
    signalled: bool,
    added: seq<Check>,
    answers: seq<(seq<Check>, bool)>)

  datatype Event =
    | Start(thread: nat)
    | Finish(thread: nat)
    | Wake(thread: nat)                         // notified, or without reason
    | Submit(checks: seq<Check>)                // by the master, while it is not waiting

  predicate Enabled(s: System, e: Event) {
    match e
    case Start(t) => t < |s.threads| && s.threads[t].Outside?
    case Finish(t) => t < |s.threads| && s.threads[t].Busy?
    case Wake(t) => t < |s.threads| && s.threads[t].Sleeping?
    case Submit(_) => 0 < |s.threads| && s.threads[0].Outside?
  }

  /** The thread goes on from the loop head. */
  function Proceeded(s: System, t: nat, shared: Shared, signalled: bool): System
    requires t < |s.threads| && shared.nTotal > 0
  {
    var (shared', r) := Head(shared, t == 0);
    match r
    case Took(batch, ok) => s.(shared := shared', signalled := signalled, threads := s.threads[t := Busy(batch, ok)])
    case FellAsleep => s.(shared := shared', signalled := signalled && t != 0, threads := s.threads[t := Sleeping])
    case Returned(answer) =>
      var s' := s.(shared := shared', signalled := signalled, threads := s.threads[t := Outside]);
      if t == 0 then s'.(added := [], answers := s.answers + [(s.added, answer)]) else s'
  }

  function Apply(s: System, e: Event): System
    requires Enabled(s, e) && Counted(s)
  {
    match e
    case Start(t) => Proceeded(s, t, Entered(s.shared), s.signalled)
    case Finish(t) =>
      var Busy(batch, ok) := s.threads[t];
      CountsOf(s, t);
      var shared := Completed(s.shared, |batch|, ok && AllPass(batch));
      Proceeded(s, t, shared, s.signalled || (t != 0 && shared.nTodo == 0))
    case Wake(t) => CountsOf(s, t); Proceeded(s, t, Resumed(s.shared), s.signalled && t != 0)
    case Submit(checks) => s.(shared := Submitted(s.shared, checks), added := s.added + checks)
  }

  // ----- The invariant -----

  function Sum(threads: seq<Thread>, f: Thread -> nat): nat {
    if threads == [] then 0 else Sum(threads[..|threads| - 1], f) + f(threads[|threads| - 1])
  }

  function Held(t: Thread): nat { if t.Busy? then |t.batch| else 0 }
  function AtWork(t: Thread): nat { if t.Busy? then 1 else 0 }
  function Asleep(t: Thread): nat { if t.Sleeping? then 1 else 0 }

  /** `nTodo` counts the queued checks and those in running batches; `nTotal - nIdle` counts the
      threads that hold a batch. */
  ghost predicate Counted(s: System) {
    && s.shared.nTodo == |s.shared.queue| + Sum(s.threads, Held)
    && s.shared.nIdle == Sum(s.threads, Asleep)
    && s.shared.nTotal == s.shared.nIdle + Sum(s.threads, AtWork)
  }

  ghost predicate BatchesPass(threads: seq<Thread>) {
    forall i | 0 <= i < |threads| && threads[i].Busy? :: AllPass(threads[i].batch)
  }

  ghost predicate Inv(s: System) {
    && |s.threads| > 0
    && Counted(s)
    && s.shared.nTodo <= |s.added|
    && (forall i | 0 <= i < |s.threads| && s.threads[i].Busy? ::
          s.threads[i].batch != [] && (s.threads[i].ok || !s.shared.allOk))
    && (AllPass(s.added) <==> s.shared.allOk && AllPass(s.shared.queue) && BatchesPass(s.threads))
    && (s.threads[0].Sleeping? ==> s.shared.queue == [] && (s.shared.nTodo > 0 || s.signalled))
    && (forall k | 0 <= k < |s.answers| :: s.answers[k].1 <==> AllPass(s.answers[k].0))
  }

  lemma {:induction false} SumUpdate(threads: seq<Thread>, f: Thread -> nat, t: nat, x: Thread)
    requires t < |threads|
    ensures Sum(threads[t := x], f) == Sum(threads, f) - f(threads[t]) + f(x)
  {
    var last := |threads| - 1;
    if t == last {
      assert threads[t := x][..last] == threads[..last];
    } else {
      SumUpdate(threads[..last], f, t, x);
      assert threads[t := x][..last] == threads[..last][t := x];
    }
  }

  lemma {:induction false} SumAtLeast(threads: seq<Thread>, f: Thread -> nat, t: nat)
    requires t < |threads|
    ensures f(threads[t]) <= Sum(threads, f)
  {
    if t < |threads| - 1 {
      SumAtLeast(threads[..|threads| - 1], f, t);
    }
  }

  lemma CountsOf(s: System, t: nat)
    requires Counted(s) && t < |s.threads|
    ensures s.threads[t].Busy? ==> |s.threads[t].batch| <= s.shared.nTodo && s.shared.nTotal > 0
    ensures s.threads[t].Sleeping? ==> s.shared.nIdle > 0 && s.shared.nTotal > 0
  {
    SumAtLeast(s.threads, Held, t);
    SumAtLeast(s.threads, Asleep, t);
    SumAtLeast(s.threads, AtWork, t);
  }

  // ----- Every step keeps it -----

  lemma SumsUpdate(threads: seq<Thread>, t: nat, x: Thread)
    requires t < |threads|
    ensures Sum(threads[t := x], Held) == Sum(threads, Held) - Held(threads[t]) + Held(x)
    ensures Sum(threads[t := x], Asleep) == Sum(threads, Asleep) - Asleep(threads[t]) + Asleep(x)
    ensures Sum(threads[t := x], AtWork) == Sum(threads, AtWork) - AtWork(threads[t]) + AtWork(x)
  {
    SumUpdate(threads, Held, t, x);
    SumUpdate(threads, Asleep, t, x);
    SumUpdate(threads, AtWork, t, x);
  }

  lemma SplitPasses(queue: seq<Check>, n: nat)
    requires n <= |queue|
    ensures AllPass(queue) <==> AllPass(queue[..n]) && AllPass(Reverse(queue[n..]))
  {
    var r := Reverse(queue[n..]);
    if AllPass(queue[..n]) && AllPass(r) {
      forall i | 0 <= i < |queue|
        ensures queue[i].passes
      {
        if i < n {
          assert queue[..n][i].passes;
        } else {
          assert r[|r| - 1 - (i - n)].passes;
        }
      }
    }
  }

  /** The state of a thread at the loop head: in the loop, neither asleep nor holding a batch. */
  ghost predicate AtHead(s: System, t: nat, shared: Shared, signalled: bool) {
    && t < |s.threads|
    && !s.threads[t].Busy?
    && shared.nTodo == |shared.queue| + Sum(s.threads, Held)
    && shared.nIdle == Sum(s.threads, Asleep) - Asleep(s.threads[t])
    && shared.nTotal == shared.nIdle + Sum(s.threads, AtWork) + 1
    && shared.nTodo <= |s.added|
    && (forall i | 0 <= i < |s.threads| && s.threads[i].Busy? ::
          s.threads[i].batch != [] && (s.threads[i].ok || !shared.allOk))
    && (AllPass(s.added) <==> shared.allOk && AllPass(shared.queue) && BatchesPass(s.threads))
    && (t != 0 && s.threads[0].Sleeping? ==> shared.queue == [] && (shared.nTodo > 0 || signalled))
    && (forall k | 0 <= k < |s.answers| :: s.answers[k].1 <==> AllPass(s.answers[k].0))
  }

  /** The thread whose batch is done. */
  function Idled(s: System, t: nat): System
    requires t < |s.threads|
  {
    s.(threads := s.threads[t := Outside])
  }

  /** With the queue empty and nothing to do, no thread holds a batch. */
  lemma NothingHeld(s: System, shared: Shared)
    requires shared.nTodo == |shared.queue| + Sum(s.threads, Held) && shared.nTodo == 0
    requires forall i | 0 <= i < |s.threads| && s.threads[i].Busy? :: s.threads[i].batch != []
    ensures forall i | 0 <= i < |s.threads| :: !s.threads[i].Busy?
  {
    forall i | 0 <= i < |s.threads|
      ensures !s.threads[i].Busy?
    {
      SumAtLeast(s.threads, Held, i);
    }
  }

  ghost predicate Passes(t: Thread) {
    t.Busy? ==> AllPass(t.batch)
  }

  lemma BatchesUpdate(threads: seq<Thread>, t: nat, x: Thread)
    requires t < |threads| && !x.Busy?
    ensures BatchesPass(threads) <==> BatchesPass(threads[t := x]) && Passes(threads[t])
  {
    var threads' := threads[t := x];
    if BatchesPass(threads') && Passes(threads[t]) {
      forall i | 0 <= i < |threads| && threads[i].Busy?
        ensures AllPass(threads[i].batch)
      {
        if i != t {
          assert threads'[i] == threads[i];
        }
      }
    }
  }

  lemma HeadTakes(s: System, t: nat, shared: Shared, signalled: bool)
    requires AtHead(s, t, shared, signalled) && shared.queue != []
    ensures Inv(Proceeded(s, t, shared, signalled))
  {
    hide AllPass, BatchesPass;
    var n := |shared.queue| - BatchCount(shared);
    var batch := Reverse(shared.queue[n..]);
    SplitPasses(shared.queue, n);
    SumsUpdate(s.threads, t, Busy(batch, shared.allOk));
    var threads' := s.threads[t := Busy(batch, shared.allOk)];
    BatchesUpdate(threads', t, s.threads[t]);
    assert threads'[t := s.threads[t]] == s.threads;
  }

  lemma HeadSleeps(s: System, t: nat, shared: Shared, signalled: bool)
    requires AtHead(s, t, shared, signalled) && Head(shared, t == 0).1.FellAsleep?
    ensures Inv(Proceeded(s, t, shared, signalled))
  {
    hide AllPass, BatchesPass;
    SumsUpdate(s.threads, t, Sleeping);
    BatchesUpdate(s.threads, t, Sleeping);
  }

  lemma HeadReturns(s: System, t: nat, shared: Shared, signalled: bool)
    requires AtHead(s, t, shared, signalled) && Head(shared, t == 0).1.Returned?
    ensures Inv(Proceeded(s, t, shared, signalled))
  {
    SumsUpdate(s.threads, t, Outside);
    NothingHeld(s, shared);
    assert BatchesPass(s.threads) && BatchesPass(s.threads[t := Outside]);
    hide BatchesPass;
  }

  lemma HeadKeepsInv(s: System, t: nat, shared: Shared, signalled: bool)
    requires AtHead(s, t, shared, signalled)
    ensures Inv(Proceeded(s, t, shared, signalled))
  {
    hide Inv, AtHead, Proceeded;
    assert shared.nTotal > 0 by {
      HeadHasThread(s, t, shared, signalled);
    }
    match Head(shared, t == 0).1
    case Took(_, _) => HeadTakes(s, t, shared, signalled);
    case FellAsleep => HeadSleeps(s, t, shared, signalled);
    case Returned(_) => HeadReturns(s, t, shared, signalled);
  }

  lemma HeadHasThread(s: System, t: nat, shared: Shared, signalled: bool)
    requires AtHead(s, t, shared, signalled)
    ensures shared.nTotal > 0
  {
  }

  lemma FinishAtHead(s: System, t: nat)
    requires Inv(s) && Enabled(s, Finish(t))
    ensures |s.threads[t].batch| <= s.shared.nTodo
    ensures var shared := Completed(s.shared, |s.threads[t].batch|, s.threads[t].ok && AllPass(s.threads[t].batch));
            AtHead(Idled(s, t), t, shared, s.signalled || (t != 0 && shared.nTodo == 0))
  {
    hide AllPass, BatchesPass;
    CountsOf(s, t);
    SumsUpdate(s.threads, t, Outside);
    BatchesUpdate(s.threads, t, Outside);
  }

  lemma StartKeepsInv(s: System, t: nat)
    requires Inv(s) && Enabled(s, Start(t))
    ensures Inv(Proceeded(s, t, Entered(s.shared), s.signalled))
  {
    hide AllPass, BatchesPass, Sum;
    HeadKeepsInv(s, t, Entered(s.shared), s.signalled);
  }

  lemma FinishKeepsInv(s: System, t: nat)
    requires Inv(s) && Enabled(s, Finish(t)) && |s.threads[t].batch| <= s.shared.nTodo && s.shared.nTotal > 0
    ensures var shared := Completed(s.shared, |s.threads[t].batch|, s.threads[t].ok && AllPass(s.threads[t].batch));
            Inv(Proceeded(s, t, shared, s.signalled || (t != 0 && shared.nTodo == 0)))
  {
    hide AllPass, Inv, AtHead, Head;
    FinishAtHead(s, t);
    var shared := Completed(s.shared, |s.threads[t].batch|, s.threads[t].ok && AllPass(s.threads[t].batch));
    HeadKeepsInv(Idled(s, t), t, shared, s.signalled || (t != 0 && shared.nTodo == 0));
    SameAfter(s, t, shared, s.signalled || (t != 0 && shared.nTodo == 0));
  }

  lemma SameAfter(s: System, t: nat, shared: Shared, signalled: bool)
    requires t < |s.threads| && shared.nTotal > 0
    ensures Proceeded(Idled(s, t), t, shared, signalled) == Proceeded(s, t, shared, signalled)
  {
    hide Head;
    var x := Proceeded(s, t, shared, signalled).threads[t];
    assert s.threads[t := Outside][t := x] == s.threads[t := x];
  }

  lemma WakeKeepsInv(s: System, t: nat)
    requires Inv(s) && Enabled(s, Wake(t)) && s.shared.nIdle > 0 && s.shared.nTotal > 0
    ensures Inv(Proceeded(s, t, Resumed(s.shared), s.signalled && t != 0))
  {
    hide AllPass, BatchesPass, Sum, Inv, Proceeded;
    WakeAtHead(s, t);
    HeadKeepsInv(s, t, Resumed(s.shared), s.signalled && t != 0);
  }

  lemma WakeAtHead(s: System, t: nat)
    requires Inv(s) && Enabled(s, Wake(t)) && s.shared.nIdle > 0
    ensures AtHead(s, t, Resumed(s.shared), s.signalled && t != 0)
  {
    hide AllPass, BatchesPass, Sum;
  }

  lemma SubmitKeepsInv(s: System, checks: seq<Check>)
    requires Inv(s) && Enabled(s, Submit(checks))
    ensures Inv(s.(shared := Submitted(s.shared, checks), added := s.added + checks))
  {
    hide AllPass, BatchesPass, Sum;
    SubmitPasses(s.shared.queue, checks);
    SubmitPasses(s.added, checks);
  }

  /** Every step of every thread, and every submission, keeps the invariant. */
  lemma StepKeepsInv(s: System, e: Event)
    requires Inv(s) && Enabled(s, e)
    ensures Counted(s) && Inv(Apply(s, e))
  {
    hide AllPass, BatchesPass, Sum, Proceeded, AtHead;
    assert Counted(s);
    match e
    case Start(t) =>
      StartKeepsInv(s, t);
    case Finish(t) =>
      CountsOf(s, t);
      FinishKeepsInv(s, t);
    case Wake(t) =>
      CountsOf(s, t);
      WakeKeepsInv(s, t);
    case Submit(checks) =>
      SubmitKeepsInv(s, checks);
  }

  lemma SubmitPasses(a: seq<Check>, b: seq<Check>)
    ensures AllPass(a + b) <==> AllPass(a) && AllPass(b)
  {
    if AllPass(a + b) {
      forall i | 0 <= i < |a|
        ensures a[i].passes
      {
        assert (a + b)[i].passes;
      }
      forall i | 0 <= i < |b|
        ensures b[i].passes
      {
        assert (a + b)[|a| + i].passes;
      }
    }
  }

  // ----- Whole runs -----

  /** No thread has started. */
  function Initial(threads: nat, batchSize: nat): System {
    System(Shared([], 0, 0, true, 0, false, batchSize), seq(threads, _ => Outside), false, [], [])
  }

  /** Every step is one that `Apply` describes. A state that is not `Counted` may be followed by any
      other; that there is none is proved, not assumed. */
  ghost predicate IsRun(run: seq<System>, events: seq<Event>, threads: nat, batchSize: nat) {
    && threads > 0
    && |run| == |events| + 1
    && run[0] == Initial(threads, batchSize)
    && forall i | 0 <= i < |events| ::
         Enabled(run[i], events[i]) && (Counted(run[i]) ==> run[i + 1] == Apply(run[i], events[i]))
  }

  lemma {:induction false} SumOutside(n: nat, f: Thread -> nat)
    requires f(Outside) == 0
    ensures Sum(seq(n, _ => Outside), f) == 0
  {
    if n > 0 {
      SumOutside(n - 1, f);
      assert seq(n, _ => Outside)[..n - 1] == seq(n - 1, _ => Outside);
    }
  }

  lemma InitialInv(threads: nat, batchSize: nat)
    requires threads > 0
    ensures Inv(Initial(threads, batchSize))
  {
    SumOutside(threads, Held);
    SumOutside(threads, Asleep);
    SumOutside(threads, AtWork);
  }

  lemma {:induction false} RunKeepsInv(run: seq<System>, events: seq<Event>, threads: nat, batchSize: nat, k: nat)
    requires IsRun(run, events, threads, batchSize) && k < |run|
    ensures Inv(run[k])
  {
    if k == 0 {
      InitialInv(threads, batchSize);
    } else {
      RunKeepsInv(run, events, threads, batchSize, k - 1);
      StepKeepsInv(run[k - 1], events[k - 1]);
    }
  }

  /** The protocol, over every interleaving:
      - `nTodo` is the checks queued and in running batches, `nTotal - nIdle` the threads at work;
      - every `Wait` that returned answered whether all checks added for it pass;
      - while the master sleeps and has not been notified, some worker holds a batch;
      - with no checks added since the last answer and the master outside, the queue is idle, as the
        next controller asserts. */
  lemma CheckQueueProtocol(run: seq<System>, events: seq<Event>, threads: nat, batchSize: nat, k: nat)
    requires IsRun(run, events, threads, batchSize) && k < |run|
    ensures var s := run[k];
            && |s.threads| > 0
            && s.shared.nTodo == |s.shared.queue| + Sum(s.threads, Held)
            && s.shared.nTotal - s.shared.nIdle == Sum(s.threads, AtWork)
            && (forall i | 0 <= i < |s.answers| :: s.answers[i].1 <==> AllPass(s.answers[i].0))
            && (s.threads[0].Sleeping? && !s.signalled ==>
                  exists t :: 0 < t < |s.threads| && s.threads[t].Busy? && s.threads[t].batch != [])
            && (s.threads[0].Outside? && s.added == [] ==> Idle(s.shared))
  {
    hide AllPass, BatchesPass;
    RunKeepsInv(run, events, threads, batchSize, k);
    var s := run[k];
    if s.threads[0].Sleeping? && !s.signalled {
      SomeoneHolds(s.threads);
    }
    if s.added == [] {
      NothingHeld(s, s.shared);
      NooneAtWork(s.threads);
      EmptyPasses();
    }
  }

  /** What `IsIdle` tells: no check is queued, no thread holds any, and none has failed. */
  lemma IdleExactly(s: System)
    requires Counted(s)
    ensures Idle(s.shared) <==>
              s.shared.queue == [] && s.shared.allOk && forall t | 0 <= t < |s.threads| :: !s.threads[t].Busy?
  {
    if Idle(s.shared) {
      forall t | 0 <= t < |s.threads|
        ensures !s.threads[t].Busy?
      {
        SumAtLeast(s.threads, AtWork, t);
      }
    }
    if forall t | 0 <= t < |s.threads| :: !s.threads[t].Busy? {
      NooneAtWork(s.threads);
    }
  }

  lemma EmptyPasses()
    ensures AllPass([])
  {
  }

  lemma {:induction false} SomeoneHolds(threads: seq<Thread>)
    requires Sum(threads, Held) > 0
    ensures exists t :: 0 <= t < |threads| && threads[t].Busy? && threads[t].batch != []
  {
    var last := |threads| - 1;
    if Held(threads[last]) == 0 {
      SomeoneHolds(threads[..last]);
      var t :| 0 <= t < last && threads[..last][t].Busy? && threads[..last][t].batch != [];
      assert threads[t] == threads[..last][t];
    } else {
      assert threads[last].Busy? && threads[last].batch != [];
    }
  }

  lemma {:induction false} NooneAtWork(threads: seq<Thread>)
    requires forall i | 0 <= i < |threads| :: !threads[i].Busy?
    ensures Sum(threads, AtWork) == 0 && Sum(threads, Held) == 0
  {
    if threads != [] {
      NooneAtWork(threads[..|threads| - 1]);
    }
  }

  /** The checks submitted by a run, and those its answers are about. */
  function AllSubmitted(events: seq<Event>): seq<Check> {
    if events == [] then []
    else
      var e := events[|events| - 1];
      AllSubmitted(events[..|events| - 1]) + if e.Submit? then e.checks else []
  }

  function AllAnswered(answers: seq<(seq<Check>, bool)>): seq<Check> {
    if answers == [] then [] else AllAnswered(answers[..|answers| - 1]) + answers[|answers| - 1].0
  }

  /** Every check that was submitted belongs to exactly one answer, in order, or is still to be
      answered for. */
  lemma {:induction false} EveryCheckAnswered(run: seq<System>, events: seq<Event>, threads: nat, batchSize: nat, k: nat)
    requires IsRun(run, events, threads, batchSize) && k < |run|
    ensures AllAnswered(run[k].answers) + run[k].added == AllSubmitted(events[..k])
  {
    if k > 0 {
      EveryCheckAnswered(run, events, threads, batchSize, k - 1);
      RunKeepsInv(run, events, threads, batchSize, k - 1);
      PrefixSnoc(events, k - 1);
      AnsweredStep(run[k - 1], events[k - 1]);
    }
  }

  lemma AnsweredStep(s: System, e: Event)
    requires Enabled(s, e) && Counted(s)
    ensures AllAnswered(Apply(s, e).answers) + Apply(s, e).added
            == AllAnswered(s.answers) + s.added + if e.Submit? then e.checks else []
  {
    hide Head, AllPass, Sum;
    var s' := Apply(s, e);
    if |s'.answers| == |s.answers| + 1 {
      assert s'.answers[..|s.answers|] == s.answers;
    }
  }
}
