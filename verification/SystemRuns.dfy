/** The descriptors, pipes and futexes of a system run, as runs of their own: what holds over every run of
    theirs holds over every run of the system. */
module SystemRuns {
  import opened Words
  import opened Pipes
  import opened Tasks
  import opened Systems
  import opened Leaks
  import W = PipeWorlds
  import F = Futexes

  // ---------------------------------------------------------------- one turn

  /** The state between resuming a blocked call and acting. */
  ghost function Between(s: Sys, u: Turn): Sys {
    if u.pid in s.core.tasks && Woken(s, u.pid, u.answer).Some? then Acting(s, u) else s
  }

  /** The descriptor call that trying a read or write makes. */
  ghost function TryOp(w: W.World, k: W.Key, c: PipeCall, stored: bool): W.Op {
    if !W.Piped(w, k) || Attempt(w, k, c, stored).None? then W.Stays
    else
      var h := w.fds[k].end;
      if c.write then W.Writes(k, c.data, WriteOf(w.pipes[h.pipe], h.write, c.data))
      else W.Reads(k, Capped(c.count), ReadOf(w.pipes[h.pipe], h.write, Capped(c.count)))
  }

  lemma TryStep(w: W.World, k: W.Key, c: PipeCall, stored: bool)
    ensures var o := Attempt(w, k, c, stored);
            W.Step(w, TryOp(w, k, c, stored), if o.Some? then o.value.files else w)
  {
    var o := Attempt(w, k, c, stored);
    if W.Piped(w, k) && o.Some? {
      var h := w.fds[k].end;
      if c.write {
        W.StepWrites(w, k, c.data, WriteOf(w.pipes[h.pipe], h.write, c.data), o.value.files);
      } else {
        W.StepReads(w, k, Capped(c.count), ReadOf(w.pipes[h.pipe], h.write, Capped(c.count)), o.value.files);
      }
    } else {
      W.StepStays(w);
    }
  }

  /** The task resumes a read or write of a pipe. */
  ghost predicate OnPipe(s: Sys, p: int) {
    && p in s.core.tasks && s.core.tasks[p].state.Blocked? && s.core.tasks[p].waiting.None? && p !in s.futex.blocked
    && s.core.tasks[p].pipe.Some?
  }

  /** The descriptor calls of a turn: that of the call it resumes, and that of the instruction. */
  ghost function FirstOp(s: Sys, u: Turn): W.Op {
    if OnPipe(s, u.pid) then
      var t := s.core.tasks[u.pid];
      TryOp(s.files, (t.table, t.pipe.value.fd), t.pipe.value, u.answer.stored)
    else W.Stays
  }

  ghost function ActOp(s: Sys, p: int, act: Act): W.Op
    requires p in s.core.tasks
  {
    var t := s.core.tasks[p];
    match act
    case FileCall(op, _, _) => op
    case TryPipe(call, stored) => TryOp(s.files, (t.table, call.fd), call, stored)
    case ForkCall(order, mids) => W.Forks(t.table, s.core.nextPid, order, mids)
    case CloneCall(_, order, mids) => W.Forks(t.table, s.core.nextPid, order, mids)
    case ExitCall(_, order, mids) =>
      if t.table == p then W.Sheds(W.Owned(s.files.fds.Keys, p), order, mids) else W.Stays
    case _ => W.Stays
  }

  ghost function SecondOp(s: Sys, u: Turn): W.Op {
    if u.pid in s.core.tasks && Woken(s, u.pid, u.answer).Some?
      && u.signal.NoSignal? then ActOp(Acting(s, u), u.pid, u.act)
    else W.Stays
  }

  lemma FirstStep(s: Sys, u: Turn)
    requires Inv(s) && u.pid in s.core.tasks
    ensures W.Step(s.files, FirstOp(s, u), Between(s, u).files)
  {
    hide Inv, Attempt, WaitResult, WaitTasks, F.CanEnd, F.Left, TryOp, W.Step;
    BlockedOnce(s, u.pid);
    W.StepStays(s.files);
    if OnPipe(s, u.pid) {
      var t := s.core.tasks[u.pid];
      TryStep(s.files, (t.table, t.pipe.value.fd), t.pipe.value, u.answer.stored);
    }
  }

  lemma ActStep(s: Sys, p: int, act: Act)
    requires Inv(s) && p in s.core.tasks && s.core.tasks[p].state.Running? && Enabled(s, p, act)
    ensures W.Step(s.files, ActOp(s, p, act), Executed(s, p, act).files)
  {
    hide Inv, Attempt, TryOp, W.Step, Executed, Local, W.Piped;
    ExecutedTouches(s, p, act);
    W.StepStays(s.files);
    if act.TryPipe? { TryStep(s.files, (s.core.tasks[p].table, act.call.fd), act.call, act.stored); }
  }

  lemma SecondStep(s: Sys, u: Turn)
    requires Inv(s) && Possible(s, u)
    ensures W.Step(Between(s, u).files, SecondOp(s, u), Stepped(s, u).files)
  {
    hide Inv, Woken, W.Step, Executed, Enabled, ActOp;
    W.StepStays(Between(s, u).files);
    if Woken(s, u.pid, u.answer).Some? {
      ActingKeeps(s, u);
      if u.signal.NoSignal? { ActStep(Acting(s, u), u.pid, u.act); }
    }
  }

  /** The futex events of a turn. */
  ghost function FirstEvent(s: Sys, u: Turn): F.Event {
    if u.pid in s.futex.blocked then F.Resuming(u.pid, u.answer.expired) else F.Idle
  }

  ghost function SecondEvent(s: Sys, u: Turn): F.Event {
    if u.pid in s.core.tasks && Woken(s, u.pid, u.answer).Some? && u.signal.NoSignal?
      && u.act.FutexCall? then u.act.event else F.Idle
  }

  lemma FirstFutex(s: Sys, u: Turn)
    requires Inv(s) && u.pid in s.core.tasks
    ensures F.Step(s.futex, FirstEvent(s, u), Between(s, u).futex)
  {
    hide Inv, Attempt, WaitResult, WaitTasks, F.Left;
    BlockedOnce(s, u.pid);
  }

  lemma ExecutedFutex(s: Sys, p: int, act: Act)
    requires p in s.core.tasks
    ensures Executed(s, p, act).futex == if act.FutexCall? then FutexAfter(s.futex, act.event) else s.futex
  {
    hide Attempt, WaitResult, WaitTasks, FutexAfter, Last;
  }

  lemma SecondFutex(s: Sys, u: Turn)
    requires Inv(s) && Possible(s, u)
    ensures F.Step(Between(s, u).futex, SecondEvent(s, u), Stepped(s, u).futex)
  {
    hide Inv, Woken, Executed, F.Waited, F.Woken, F.WakeCount;
    if Woken(s, u.pid, u.answer).Some? {
      ActingKeeps(s, u);
      var x := Acting(s, u);
      NotWaiting(x, u.pid);
      if u.signal.NoSignal? { ExecutedFutex(x, u.pid, u.act); }
    }
  }

  lemma NotWaiting(s: Sys, p: int)
    requires Inv(s) && p in s.core.tasks && s.core.tasks[p].state.Running?
    ensures p !in s.futex.blocked
  {
    Unblocked(s.core, p);
  }

  // ---------------------------------------------------------------- whole runs

  /** The descriptors and pipes over the first `n` turns, before and after each of their two calls. */
  ghost function Files(ss: seq<Sys>, us: seq<Turn>, n: nat): (ws: seq<W.World>)
    requires n <= |us| && n < |ss|
    ensures |ws| == 2 * n + 1
  {
    if n == 0 then [ss[0].files] else Files(ss, us, n - 1) + [Between(ss[n - 1], us[n - 1]).files, ss[n].files]
  }

  ghost function FileOps(ss: seq<Sys>, us: seq<Turn>, n: nat): (ops: seq<W.Op>)
    requires n <= |us| && n < |ss|
    ensures |ops| == 2 * n
  {
    if n == 0 then [] else FileOps(ss, us, n - 1) + [FirstOp(ss[n - 1], us[n - 1]), SecondOp(ss[n - 1], us[n - 1])]
  }

  lemma {:induction false} FilesAt(ss: seq<Sys>, us: seq<Turn>, n: nat, i: nat)
    requires n <= |us| && n < |ss| && i <= n
    ensures Files(ss, us, n)[2 * i] == ss[i].files
  {
    hide Between;
    if i < n { FilesAt(ss, us, n - 1, i); }
  }

  lemma RunMore(ws: seq<W.World>, ops: seq<W.Op>, op: W.Op, x: W.World)
    requires W.Run(ws, ops) && W.Step(ws[|ops|], op, x)
    ensures W.Run(ws + [x], ops + [op])
  {
    hide W.Step, W.Inv;
    var xs, os := ws + [x], ops + [op];
    forall n | 0 <= n < |os| ensures W.Step(xs[n], os[n], xs[n + 1]) {
      if n < |ops| { assert W.Step(ws[n], ops[n], ws[n + 1]); }
    }
  }

  /** The descriptors and pipes of every system run make a run of descriptor calls. */
  lemma {:induction false} FilesRun(ss: seq<Sys>, us: seq<Turn>, n: nat)
    requires Run(ss, us) && n < |ss|
    ensures W.Run(Files(ss, us, n), FileOps(ss, us, n))
  {
    hide Inv, W.Inv, W.Step, W.Run, Initial, Possible, Stepped, Between, FirstOp, SecondOp;
    if n == 0 {
      RunKeeps(ss, us, 0);
      StartsRun(ss[0]);
    } else {
      var s, u, t := ss[n - 1], us[n - 1], ss[n];
      FilesRun(ss, us, n - 1);
      FilesAt(ss, us, n - 1, n - 1);
      RunKeeps(ss, us, n - 1);
      assert Goes(s, u, ss[n - 1 + 1]);
      TurnPossible(s, u);
      FirstStep(s, u);
      SecondStep(s, u);
      var ws, ops, mid := Files(ss, us, n - 1), FileOps(ss, us, n - 1), Between(s, u).files;
      RunMore(ws, ops, FirstOp(s, u), mid);
      RunMore(ws + [mid], ops + [FirstOp(s, u)], SecondOp(s, u), t.files);
      assert ws + [mid] + [t.files] == Files(ss, us, n);
      assert ops + [FirstOp(s, u)] + [SecondOp(s, u)] == FileOps(ss, us, n);
    }
  }

  lemma StartsRun(s: Sys)
    requires Inv(s)
    ensures W.Run([s.files], []) && F.Run([s.futex], [])
  {
  }

  lemma TurnPossible(s: Sys, u: Turn)
    requires Possible(s, u)
    ensures u.pid in s.core.tasks
  {
  }

  /** Over every system run the bytes of a pipe are conserved, in order and within capacity. */
  lemma BytesConservedInRun(ss: seq<Sys>, us: seq<Turn>, i: nat, j: nat, pipe: PipeBuffer)
    requires Run(ss, us) && i <= j < |ss| && pipe in ss[i].files.pipes
    ensures pipe in ss[j].files.pipes && |ss[j].files.pipes[pipe].data| <= CAPACITY
    ensures var ws, ops := Files(ss, us, j), FileOps(ss, us, j);
            ss[i].files.pipes[pipe].data + W.Given(ws, ops, 2 * i, 2 * j, pipe)
            == W.Taken(ws, ops, 2 * i, 2 * j, pipe) + ss[j].files.pipes[pipe].data
  {
    hide W.Run, Files, FileOps, Initial;
    FilesRun(ss, us, j);
    FilesAt(ss, us, j, i);
    FilesAt(ss, us, j, j);
    W.BytesConserved(Files(ss, us, j), FileOps(ss, us, j), 2 * i, 2 * j, pipe);
  }

  /** Over every system run a pipe at its end stays there, and a broken pipe stays broken. */
  lemma EndsForeverInRun(ss: seq<Sys>, us: seq<Turn>, i: nat, j: nat, pipe: PipeBuffer)
    requires Run(ss, us) && i <= j < |ss| && pipe in ss[i].files.pipes
    ensures pipe in ss[j].files.pipes
    ensures ss[i].files.pipes[pipe].AtEnd() ==> ss[j].files.pipes[pipe].AtEnd()
    ensures ss[i].files.pipes[pipe].Broken() ==> ss[j].files.pipes[pipe].Broken()
  {
    hide W.Run, Files, FileOps, Initial;
    FilesRun(ss, us, j);
    FilesAt(ss, us, j, i);
    FilesAt(ss, us, j, j);
    W.RunProgress(Files(ss, us, j), FileOps(ss, us, j), 2 * i, 2 * j);
    assert W.Later(ss[i].files.pipes[pipe], ss[j].files.pipes[pipe]);
  }

  /** The futexes over the first `n` turns. */
  ghost function Tables(ss: seq<Sys>, us: seq<Turn>, n: nat): (fs: seq<F.Snapshot>)
    requires n <= |us| && n < |ss|
    ensures |fs| == 2 * n + 1
  {
    if n == 0 then [ss[0].futex] else Tables(ss, us, n - 1) + [Between(ss[n - 1], us[n - 1]).futex, ss[n].futex]
  }

  ghost function FutexEvents(ss: seq<Sys>, us: seq<Turn>, n: nat): (es: seq<F.Event>)
    requires n <= |us| && n < |ss|
    ensures |es| == 2 * n
  {
    if n == 0 then [] else FutexEvents(ss, us, n - 1) + [FirstEvent(ss[n - 1], us[n - 1]),
                                                         SecondEvent(ss[n - 1], us[n - 1])]
  }

  lemma {:induction false} TablesAt(ss: seq<Sys>, us: seq<Turn>, n: nat, i: nat)
    requires n <= |us| && n < |ss| && i <= n
    ensures Tables(ss, us, n)[2 * i] == ss[i].futex
    ensures i < n ==> Tables(ss, us, n)[2 * i + 1] == Between(ss[i], us[i]).futex
    ensures i < n ==> FutexEvents(ss, us, n)[2 * i + 1] == SecondEvent(ss[i], us[i])
  {
    hide Between, SecondEvent, FirstEvent;
    if i < n - 1 { TablesAt(ss, us, n - 1, i); } else if i == n - 1 { TablesAt(ss, us, n - 1, n - 1); }
  }

  lemma EventsMore(fs: seq<F.Snapshot>, es: seq<F.Event>, e: F.Event, x: F.Snapshot)
    requires F.Run(fs, es) && F.Step(fs[|es|], e, x)
    ensures F.Run(fs + [x], es + [e])
  {
    hide F.Step, F.Inv;
    var xs, vs := fs + [x], es + [e];
    forall n | 0 <= n < |vs| ensures F.Step(xs[n], vs[n], xs[n + 1]) {
      if n < |es| { assert F.Step(fs[n], es[n], fs[n + 1]); }
    }
  }

  /** The futexes of every system run make a run of futex events. */
  lemma {:induction false} FutexRun(ss: seq<Sys>, us: seq<Turn>, n: nat)
    requires Run(ss, us) && n < |ss|
    ensures F.Run(Tables(ss, us, n), FutexEvents(ss, us, n))
  {
    hide Inv, F.Inv, F.Step, F.Run, Initial, Possible, Stepped, Between, FirstEvent, SecondEvent;
    if n == 0 {
      RunKeeps(ss, us, 0);
      StartsRun(ss[0]);
    } else {
      var s, u, t := ss[n - 1], us[n - 1], ss[n];
      FutexRun(ss, us, n - 1);
      TablesAt(ss, us, n - 1, n - 1);
      RunKeeps(ss, us, n - 1);
      assert Goes(s, u, ss[n - 1 + 1]);
      TurnPossible(s, u);
      FirstFutex(s, u);
      SecondFutex(s, u);
      var fs, es, mid := Tables(ss, us, n - 1), FutexEvents(ss, us, n - 1), Between(s, u).futex;
      EventsMore(fs, es, FirstEvent(s, u), mid);
      EventsMore(fs + [mid], es + [FirstEvent(s, u)], SecondEvent(s, u), t.futex);
      assert fs + [mid] + [t.futex] == Tables(ss, us, n);
      assert es + [FirstEvent(s, u)] + [SecondEvent(s, u)] == FutexEvents(ss, us, n);
    }
  }

  /** Over every system run, of two tasks that wait at an address the one that came first can resume if the
      other was released. */
  lemma FirstServedInRun(ss: seq<Sys>, us: seq<Turn>, n: nat, p: int, q: int, a: Answer)
    requires Run(ss, us) && n < |ss| && F.CameFirst(ss[n].futex, p, q)
    requires ss[n].futex.blocked[q].waiter in ss[n].futex.closed
    ensures ss[n].futex.blocked[p].waiter in ss[n].futex.closed && CanRun(ss[n], p, a)
  {
    hide F.Run, F.Inv, Tables, FutexEvents;
    FutexRun(ss, us, n);
    TablesAt(ss, us, n, 0);
    TablesAt(ss, us, n, n);
    F.RunOrderly(Tables(ss, us, n), FutexEvents(ss, us, n), 2 * n);
    ReleasedRuns(ss, us, n, p, a);
  }

  /** A task whose waiter was released can run. */
  lemma ReleasedRuns(ss: seq<Sys>, us: seq<Turn>, n: nat, p: int, a: Answer)
    requires Run(ss, us) && n < |ss| && p in ss[n].futex.blocked && ss[n].futex.blocked[p].waiter in ss[n].futex.closed
    ensures CanRun(ss[n], p, a)
  {
    RunKeeps(ss, us, n);
    hide Run, F.Inv, W.Inv;
    var s := ss[n];
    assert p in s.core.futex;
    assert TaskOk(s.core.log, p, s.core.tasks[p], true);
    RunsUnlessStuck(s, p, a);
  }

  /** Over every system run a wake lets the oldest waiters go: a task with fewer waiters before it than the
      wake is for can run as long as it is in that wait. */
  lemma WakesOldestInRun(ss: seq<Sys>, us: seq<Turn>, m: nat, j: nat, p: int, i: nat, a: Answer)
    requires Run(ss, us) && m < j < |ss| && p in Between(ss[m], us[m]).futex.blocked && p in ss[j].futex.blocked
    requires ss[j].futex.blocked[p] == Between(ss[m], us[m]).futex.blocked[p]
    requires var e, queues := SecondEvent(ss[m], us[m]), Between(ss[m], us[m]).futex.queues;
             && e.Waking? && i < e.count && i < |F.QueueAt(queues, e.at)|
             && F.QueueAt(queues, e.at)[i] == ss[j].futex.blocked[p].waiter
    ensures CanRun(ss[j], p, a)
  {
    hide F.Run, F.Inv, Tables, FutexEvents, Between, SecondEvent, Initial;
    FutexRun(ss, us, j);
    TablesAt(ss, us, j, m);
    TablesAt(ss, us, j, j);
    var fs, es := Tables(ss, us, j), FutexEvents(ss, us, j);
    F.WakesOne(fs, es, 2 * m + 1, i);
    F.ReleasedByWakes(fs, es, 2 * m + 2, 2 * j, ss[j].futex.blocked[p].waiter);
    ReleasedRuns(ss, us, j, p, a);
  }

  /** Over every system run no wake-up is lost: after a wake for at least as many waiters as are queued,
      every task that was waiting there, and still is, can run. */
  lemma NoLostWakeupInRun(ss: seq<Sys>, us: seq<Turn>, m: nat, j: nat, p: int, a: Answer)
    requires Run(ss, us) && m < j < |ss| && p in Between(ss[m], us[m]).futex.blocked && p in ss[j].futex.blocked
    requires ss[j].futex.blocked[p] == Between(ss[m], us[m]).futex.blocked[p]
    requires var e := SecondEvent(ss[m], us[m]);
             && e.Waking? && e.at == ss[j].futex.blocked[p].uaddr
             && |F.QueueAt(Between(ss[m], us[m]).futex.queues, e.at)| <= e.count
    ensures CanRun(ss[j], p, a)
  {
    hide F.Run, F.Inv, Tables, FutexEvents, Between, SecondEvent, Initial;
    FutexRun(ss, us, j);
    TablesAt(ss, us, j, m);
    TablesAt(ss, us, j, j);
    WakeReleases(Tables(ss, us, j), FutexEvents(ss, us, j), 2 * m + 1, 2 * j, p);
    ReleasedRuns(ss, us, j, p, a);
  }

  lemma WakeReleases(fs: seq<F.Snapshot>, es: seq<F.Event>, m: nat, j: nat, p: int)
    requires F.Run(fs, es) && m < j < |fs| && p in fs[m].blocked && es[m].Waking? && es[m].at == fs[m].blocked[p].uaddr
    requires |F.QueueAt(fs[m].queues, es[m].at)| <= es[m].count
    ensures fs[m].blocked[p].waiter in fs[j].closed
  {
    F.RunKeeps(fs, es, m);
    var b := fs[m].blocked[p];
    assert F.Waits(fs[m].queues, fs[m].closed, fs[m].next, b);
    var ws := F.QueueAt(fs[m].queues, b.uaddr);
    assert ws[..|ws|] == ws;
    F.ReleasedByWakes(fs, es, m, j, b.waiter);
  }
}
