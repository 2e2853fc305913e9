/** The cooperative scheduler: it runs the tasks over the shared descriptor tables and futex queues. */
module Scheduling {
  import opened Words
  import opened Errno
  import opened Pipes
  import opened Tasks
  import opened Systems
  import opened Descriptors
  import W = PipeWorlds
  import F = Futexes

  /** The instruction a task executes, as far as the scheduler is concerned.  `stored` says whether guest
      memory takes what the call stores. */
  datatype Instruction =
    | Compute(value: int)
    | CloseFd(fd: int)
    | DupFd(oldFd: int, newFd: int, flags: u32, dup3: bool)
    | FcntlDupFd(fd: int, least: u32, close: bool)
    | PipeFds(close: bool, stored: bool)
    | OpenFile
    | Exec
    | Transfer(call: PipeCall, stored: bool, other: int)
    | FutexWait(uaddr: u32, deadline: bool)
    | FutexWake(uaddr: u32, count: u32)
    | Wait(wait: WaitCall, stored: bool)
    | Fork
    | Clone(stored: bool)
    | Exit(code: int)
    | Crash
    | Stop
  {
    predicate OnFiles() { CloseFd? || DupFd? || FcntlDupFd? || PipeFds? || OpenFile? || Exec? }
  }

  datatype RunResult = Done | Failed | Cancelled | LimitExceeded

  /** A call on descriptors changes the descriptors it names, and returns 0, the new descriptor, or an error
      when it has changed nothing. */
  ghost predicate Touches(w: W.World, i: Instruction, table: int, op: W.Op, v: int) {
    match i
    case CloseFd(fd) => op == W.Closes((table, fd)) && (v == 0 || (v == -EBADF && (table, fd) !in w.fds))
    case DupFd(o, n, _, _) =>
      || (op.Stays? && (v == -EINVAL || (v == -EBADF && (table, o) !in w.fds) || (o == n && v == n)))
      || (op.Dups? && op.from == (table, o) && op.dst == (table, n) && v == n >= 0)
    case FcntlDupFd(fd, least, _) =>
      || (op.Stays? && (if least > 0x10_0000 then v == -EINVAL else v == -EBADF && (table, fd) !in w.fds))
      || (op.Dups? && op.from == (table, fd) && op.dst == (table, v) && v >= least)
    case PipeFds(_, stored) =>
      if stored then v == 0 && op.Makes? && op.r.0 == table && op.w.0 == table
      else v == -EFAULT && op.Undoes? && op.r.0 == table && op.w.0 == table
    case OpenFile => op == W.Opens((table, v)) && v >= 0
    case Exec => v == 0 && op.Sheds? && forall k :: k in op.keys ==> k.0 == table
    case _ => false
  }

  /** The act is that of the instruction. */
  ghost predicate Fits(w: W.World, i: Instruction, table: int, act: Act) {
    match i
    case Compute(v) => act == Plain(v)
    case Transfer(call, stored, other) => act == TryPipe(call, stored) || act == Plain(other)
    case FutexWait(a, deadline) =>
      act.FutexCall? && act.event.Waiting? && act.event.uaddr == a && act.event.deadline == deadline
    case FutexWake(a, n) => act.FutexCall? && act.event == F.Waking(a, n)
    case Wait(w, stored) => act == WaitChild(w, stored)
    case Fork => act.ForkCall?
    case Clone(stored) => act.CloneCall? && act.stored == stored
    case Exit(code) => act.ExitCall? && act.code == code
    case Crash => act == CpuFault
    case Stop => act == Halt
    case _ => act.FileCall? && Touches(w, i, table, act.op, act.value)
  }

  lemma LocalTouches(w: W.World, i: Instruction, table: int, op: W.Op, v: int)
    requires Touches(w, i, table, op, v)
    ensures Local(op, table)
  {
  }

  /** From `s`, the instruction `i` of task `p` leads to `x`, before the step of the process ends. */
  ghost predicate Did(s: Sys, p: int, i: Instruction, act: Act, x: Sys) {
    p in s.core.tasks && Fits(s.files, i, s.core.tasks[p].table, act) && Enabled(s, p, act) && x == Called(s, p, act)
  }

  ghost function Returns(s: Sys, p: int, v: int): Sys
    requires p in s.core.tasks
  {
    s.(core := Put(s.core, p, s.core.tasks[p].(result := v), [Executes(p)], false))
  }

  lemma DidCompute(s: Sys, p: int, v: int)
    requires p in s.core.tasks
    ensures Did(s, p, Compute(v), Plain(v), Returns(s, p, v))
  {
  }

  lemma DidFault(s: Sys, p: int)
    requires p in s.core.tasks
    ensures Did(s, p, Crash, CpuFault, Returns(s, p, s.core.tasks[p].result))
    ensures Did(s, p, Stop, Halt, Returns(s, p, s.core.tasks[p].result))
  {
  }

  lemma DidFiles(s: Sys, p: int, i: Instruction, op: W.Op, after: W.World, v: int)
    requires p in s.core.tasks && i.OnFiles() && W.Step(s.files, op, after)
             && Touches(s.files, i, s.core.tasks[p].table, op, v)
    ensures Did(s, p, i, FileCall(op, after, v), Returns(s, p, v).(files := after))
  {
    hide W.Step;
    LocalTouches(s.files, i, s.core.tasks[p].table, op, v);
  }

  lemma DidNoTransfer(s: Sys, p: int, call: PipeCall, stored: bool, other: int)
    requires p in s.core.tasks
    ensures Did(s, p, Transfer(call, stored, other), Plain(other), Returns(s, p, other))
  {
  }

  lemma DidTransfer(s: Sys, p: int, call: PipeCall, stored: bool, other: int, o: Option<Tried>)
    requires p in s.core.tasks && W.Piped(s.files, (s.core.tasks[p].table, call.fd))
    requires o == Attempt(s.files, (s.core.tasks[p].table, call.fd), call, stored)
    ensures Did(s, p, Transfer(call, stored, other), TryPipe(call, stored),
                if o.Some? then Returns(s, p, o.value.result).(files := o.value.files)
                else s.(core := Put(s.core, p, s.core.tasks[p].(pipe := Some(call)), [Executes(p)], false)))
  {
    hide Attempt;
  }

  lemma DidFutexWait(s: Sys, p: int, a: u32, deadline: bool, x: Sys)
    requires p in s.core.tasks && x.files == s.files && x.futex == F.Waited(s.futex, p, a, deadline)
    requires x.core == s.core.(log := s.core.log + [Executes(p)], futex := s.core.futex + {p})
    ensures Did(s, p, FutexWait(a, deadline), FutexCall(F.Waiting(p, a, deadline), 0), x)
  {
    hide F.Waited;
    assert s.core.tasks[p := s.core.tasks[p]] == s.core.tasks;
  }

  lemma DidFutexWake(s: Sys, p: int, a: u32, n: u32)
    requires p in s.core.tasks
    ensures var r := F.WakeCount(s.futex, a, n);
            Did(s, p, FutexWake(a, n), FutexCall(F.Waking(a, n), r), Returns(s, p, r).(futex := F.Woken(s.futex, a, n)))
  {
    hide F.Woken, F.WakeCount;
  }

  lemma DidWait(s: Sys, p: int, w: WaitCall, stored: bool, x: Sys)
    requires p in s.core.tasks && x.files == s.files && x.futex == s.futex
    requires var c := s.core;
             var r, after := WaitResult(c.tasks, c.order, p, w, stored), WaitTasks(c.tasks, c.order, p, w, stored);
             x.core == c.(tasks := after[p := after[p].(result := r)],
                          log := c.log + [Executes(p)] + if r == -EAGAIN then []
                            else [Waited(p, w, r, StatusOf(c.tasks, w, r))])
    ensures Did(s, p, Wait(w, stored), WaitChild(w, stored), x)
  {
    hide WaitResult;
  }

  lemma DidFork(s: Sys, p: int, visited: seq<W.Key>, mids: seq<W.World>, files: W.World)
    requires p in s.core.tasks && W.Step(s.files, W.Forks(s.core.tasks[p].table, s.core.nextPid, visited, mids), files)
    ensures Did(s, p, Fork, ForkCall(visited, mids),
                s.(core := Born(Returns(s, p, s.core.nextPid).core, Child(p, s.core.nextPid)), files := files))
  {
  }

  lemma DidClone(s: Sys, p: int, stored: bool, visited: seq<W.Key>, mids: seq<W.World>, files: W.World)
    requires p in s.core.tasks && W.Step(s.files, W.Forks(s.core.tasks[p].table, s.core.nextPid, visited, mids), files)
    ensures var x := Returns(s, p, if stored then s.core.nextPid else -EFAULT).core;
            Did(s, p, Clone(stored), CloneCall(stored, visited, mids),
                s.(core := if stored then Born(x, Child(p, s.core.tasks[p].table))
                   else x.(nextPid := s.core.nextPid + 1), files := files))
  {
  }

  ghost function Exits(s: Sys, p: int, code: int): Sys
    requires p in s.core.tasks
  {
    s.(core := Put(s.core, p, s.core.tasks[p].(state := Exited, exitCode := code), [], false))
  }

  lemma DidExit(s: Sys, p: int, code: int, visited: seq<W.Key>, mids: seq<W.World>, files: W.World)
    requires p in s.core.tasks && p !in s.core.futex && s.core.tasks[p].waiting.None? && s.core.tasks[p].pipe.None?
    requires if s.core.tasks[p].table == p
             then W.Step(s.files, W.Sheds(W.Owned(s.files.fds.Keys, p), visited, mids), files)
             else files == s.files
    ensures var act := ExitCall(code, visited, mids);
            && Fits(s.files, Exit(code), s.core.tasks[p].table, act) && Enabled(s, p, act)
            && Executed(s, p, act) == Exits(Returns(s, p, 0), p, code).(files := files)
  {
  }

  /** The instruction and the rest of the step of the process. */
  lemma Finish(s: Sys, p: int, i: Instruction, act: Act, y: Sys)
    requires Inv(s) && Did(s, p, i, act, y) && s.core.tasks[p].state.Running?
    ensures p in y.core.tasks && Fits(s.files, i, s.core.tasks[p].table, act) && Enabled(s, p, act)
            && Settled(y, p, act) == Executed(s, p, act)
    ensures Inv(Executed(s, p, act)) && Since(s.core, Executed(s, p, act).core)
    ensures Executed(s, p, act).core.tasks[p].state.Faulted? <==> act.CpuFault? || act.Halt?
    ensures act.ExitCall? ==> i.Exit?
    ensures act.CpuFault? || act.Halt? <==> i.Crash? || i.Stop?
  {
    hide Inv, Since, Enabled, Called, Settled, Touches;
    ExecutedKeeps(s, p, act);
    Outcome(s, p, act);
  }

  lemma Outcome(s: Sys, p: int, act: Act)
    requires Inv(s) && p in s.core.tasks && s.core.tasks[p].state.Running?
    ensures Executed(s, p, act).core.tasks[p].state.Faulted? <==> act.CpuFault? || act.Halt?
  {
    hide Inv, CoreOk, W.Inv, F.Inv, Attempt, WaitResult, Last, FutexAfter, StatusOf;
    Parts(s, p);
    RunningTask(s, p);
  }

  ghost function WaitDone(s: Sys, p: int, w: WaitCall, stored: bool): Sys
    requires p in s.core.tasks
  {
    var c := s.core;
    var r, after := WaitResult(c.tasks, c.order, p, w, stored),
      WaitTasks(c.tasks[p := c.tasks[p].(waiting := None)], c.order, p, w, stored);
    s.(core := c.(tasks := after[p := after[p].(waiting := None, result := r, state := Ready)],
                  log := c.log + [Completes(p, r)] + [Waited(p, w, r, StatusOf(c.tasks, w, r))]))
  }

  /** Making a wait4 call again: it blocks with the record it had, or returns. */
  lemma WaitAgain(tasks: map<int, Task>, order: seq<int>, p: int, w: WaitCall, stored: bool)
    requires p in tasks && tasks[p].waiting == Some(w)
    ensures var cleared := tasks[p := tasks[p].(waiting := None)];
            var r, after := WaitResult(tasks, order, p, w, stored), WaitTasks(cleared, order, p, w, stored);
            && WaitResult(cleared, order, p, w, stored) == r && p in after
            && (r == -EAGAIN ==> after == tasks)
  {
    WaitIgnores(tasks, order, p, tasks[p].(waiting := None), w, stored);
    hide WaitResult;
  }

  lemma ResumesWait(s: Sys, p: int, a: Answer, w: WaitCall)
    requires p in s.core.tasks && s.core.tasks[p].waiting == Some(w)
    ensures Resumed(s, p, a) == if WaitResult(s.core.tasks, s.core.order, p, w, a.stored) == -EAGAIN then None
            else Some(WaitDone(s, p, w, a.stored))
  {
    hide WaitResult;
  }

  class Scheduler {
    const tables: DescriptorTables
    const futexes: F.FutexTable
    var tasks: map<int, Task>
    var order: seq<int>
    var nextPid: int
    var steps: nat
    ghost var log: Log

    ghost function State(): Sys
      reads this, tables, tables.pipes, tables.handles, futexes
    {
      Sys(Core(tasks, order, nextPid, log, futexes.blocked.Keys), tables.State(), futexes.State())
    }

    ghost predicate Valid()
      reads this, tables, tables.pipes, tables.handles, futexes
    {
      Inv(State())
    }

    /** A scheduler with a root process. */
    constructor (root: int, tty: bool)
      requires root > 0
      ensures Valid() && State() == Initial(root) && steps == 0
    {
      tables := new DescriptorTables(tty);
      futexes := new F.FutexTable();
      tasks := map[root := Child(0, root)];
      order, nextPid, steps, log := [root], root + 1, 0, [];
      new;
      InitialOk(root);
    }

    // -------------------------------------------------------------- calls on the shared tables

    method FileSyscall(table: int, i: Instruction) returns (r: int, ghost op: W.Op)
      requires tables.Valid() && i.OnFiles()
      modifies tables, tables.pipes, tables.handles
      ensures tables.Grown()
      ensures tables.Valid() && W.Step(old(tables.State()), op, tables.State())
              && Touches(old(tables.State()), i, table, op, r)
      ensures i.CloseFd? ==>
              r == if HandleFor(old(tables.fds), old(tables.closedFds), tables.tty, (table, i.fd)).Some? then 0
                else -EBADF
      ensures i.DupFd? ==>
                r == DupResult(old(tables.fds), old(tables.closedFds), tables.tty, table, i.oldFd, i.newFd, i.flags,
                               i.dup3)
      ensures i.FcntlDupFd? && i.least > 0x10_0000 ==> r == -EINVAL
      ensures i.FcntlDupFd? && i.least <= 0x10_0000 ==>
                if HandleFor(old(tables.fds), old(tables.closedFds), tables.tty, (table, i.fd)).None? then r == -EBADF
                  else r >= 0
      ensures i.FcntlDupFd? ==> if r >= 0 then op.Dups? && op.dst == (table, r) else op.Stays?
      ensures i.Exec? ==> r == 0 && op.keys == W.Owned(old(tables.cloexec), table)
      ensures i.Exec? ==> tables.fds == old(tables.fds) - op.keys
      ensures i.PipeFds? ==> r == if i.stored then 0 else -EFAULT
      ensures i.OpenFile? ==> op == W.Opens((table, r))
    {
      hide W.Inv, W.Step;
      match i {
        case CloseFd(fd) =>
          r := tables.Close((table, fd));
          op := W.Closes((table, fd));
        case DupFd(oldFd, newFd, flags, dup3) => r, op := tables.Dup(table, oldFd, newFd, flags, dup3);
        case FcntlDupFd(fd, least, close) => r, op := tables.FcntlDup(table, fd, least, close);
        case PipeFds(close, stored) => r, op := PipeSyscall(table, close, stored);
        case OpenFile =>
          r := tables.Open(table);
          op := W.Opens((table, r));
        case Exec =>
          ghost var keys := W.Owned(tables.cloexec, table);
          ghost var visited, mids := tables.CloseCloexec(table);
          r, op := 0, W.Sheds(keys, visited, mids);
      }
    }

    method IsPipe(k: W.Key) returns (b: bool)
      requires tables.Valid()
      ensures b <==> W.Piped(tables.State(), k)
    {
      b := k in tables.fds && tables.fds[k].PipeEnd?;
      if b { W.SlotOpen(tables.State(), k); }
    }

    method CopyTable(parent: int, child: int) returns (ghost visited: seq<W.Key>, ghost mids: seq<W.World>)
      requires tables.Valid() && parent != child && W.Unused(tables.State().fds, child)
      modifies tables, tables.pipes, tables.handles
      ensures tables.Grown()
      ensures tables.Valid() && W.Step(old(tables.State()), W.Forks(parent, child, visited, mids), tables.State())
    {
      hide W.Inv, W.Step;
      visited, mids := tables.Fork(parent, child);
    }

    /** pipe2, apart from guest memory: a pair that cannot be stored is undone. */
    method PipeSyscall(table: int, close: bool, stored: bool) returns (result: int, ghost op: W.Op)
      requires tables.Valid()
      modifies tables, tables.pipes, tables.handles
      ensures tables.Grown()
      ensures tables.Valid() && W.Step(old(tables.State()), op, tables.State())
              && Touches(old(tables.State()), PipeFds(close, stored), table, op, result)
      ensures result == if stored then 0 else -EFAULT
    {
      hide W.Inv, W.Step, W.PipeMade, W.Emptied;
      ghost var v := tables.State();
      var r, w := tables.OpenPipe(table, close);
      ghost var made := tables.State();
      if !stored {
        ghost var half := tables.UndoPipe((table, r), (table, w));
        W.StepUndoes(v, (table, r), (table, w), made, half, tables.State());
        return -EFAULT, W.Undoes((table, r), (table, w), made, half);
      }
      W.StepMakes(v, (table, r), (table, w), tables.State());
      return 0, W.Makes((table, r), (table, w));
    }

    /** Tries a read or write of a descriptor once; no result if it would block. */
    method TransferSyscall(k: W.Key, c: PipeCall, stored: bool) returns (r: Option<int>)
      requires tables.Valid()
      modifies tables.pipes
      ensures tables.Valid()
      ensures Attempt(old(tables.State()), k, c, stored) == if r.Some? then Some(Tried(r.value, tables.State()))
              else None
      ensures r.None? ==> tables.State() == old(tables.State())
    {
      hide W.Inv, W.Step;
      ghost var v := tables.State();
      if k !in tables.fds || tables.fds[k].OtherFile? { return Some(-EBADF); }
      if c.write {
        var put := tables.Write(k, c.data);
        hide Attempt;
        AttemptWrites(v, k, c, stored, put, tables.State());
        match put {
          case Wrote(n) => r := Some(n);
          case BrokenPipe => r := Some(-EPIPE);
          case WriteBlocks => r := None;
          case NotWritable => r := Some(-EFAULT);
        }
      } else {
        var got := tables.Read(k, Capped(c.count));
        hide Attempt;
        AttemptReads(v, k, c, stored, got, tables.State());
        match got {
          case Bytes(b) => r := Some(if stored then |b| else -EFAULT);
          case EndOfFile => r := Some(if stored then 0 else -EFAULT);
          case ReadBlocks => r := None;
          case NotReadable => r := Some(-EFAULT);
        }
      }
    }

    // -------------------------------------------------------------- wait4

    /** Finds a child to return, with the status word that is stored if one is asked for; blocks the caller if
        the first candidate is still alive. */
    method Wait4(parent: int, w: WaitCall, stored: bool) returns (r: int, status: Option<int>)
      requires parent in tasks && tasks[parent].waiting.None? && forall p :: p in order ==> p in tasks && p > 0
      modifies this`tasks
      ensures r == WaitResult(old(tasks), order, parent, w, stored)
      ensures tasks == WaitTasks(old(tasks), order, parent, w, stored)
      ensures status == StatusOf(old(tasks), w, r)
      ensures WaitGives(old(tasks), order, parent, w, stored, r)
      ensures status.Some? <==> r > 0 && w.status
      ensures status.Some? ==> r in old(tasks) && status.value == old(tasks)[r].exitCode % 0x100 * 0x100
      ensures r > 0 ==> r in old(tasks) && tasks == old(tasks)[r := old(tasks)[r].(reaped := true)]
      ensures r <= 0 && r != -EAGAIN ==> tasks == old(tasks)
      ensures r == -EAGAIN ==> tasks == old(tasks)[parent := old(tasks)[parent].(waiting := Some(w))]
    {
      WaitMeans(tasks, order, parent, w, stored);
      hide WaitGives;
      status := None;
      for i := 0 to |order|
        invariant tasks == old(tasks) && status == None
        invariant FirstMatch(tasks, order, parent, w.requested) == FirstMatch(tasks, order[i..], parent, w.requested)
      {
        var pid := order[i];
        if tasks[pid].reaped || tasks[pid].parent != parent { continue; }
        if w.requested > 0 && w.requested != pid { continue; }
        if !tasks[pid].state.Exited? {
          if w.nohang { return 0, None; }
          tasks := tasks[parent := tasks[parent].(waiting := Some(w))];
          return -EAGAIN, None;
        }
        if w.status {
          if !stored { return -EFAULT, None; }
          status := Some(tasks[pid].exitCode % 0x100 * 0x100);
        }
        tasks := tasks[pid := tasks[pid].(reaped := true)];
        return pid, status;
      }
      r := -ECHILD;
    }

    // -------------------------------------------------------------- completing a blocked call

    /** Tries to complete the blocked call of a task; if it can, the task becomes Ready. */
    method Resume(p: int, a: Answer) returns (ok: bool)
      requires Valid() && p in tasks && tasks[p].state.Blocked?
      modifies this`tasks, this`log, tables.pipes, futexes
      ensures Valid() && p in tasks
      ensures Resumed(old(State()), p, a) == if ok then Some(State()) else None
      ensures ok ==> Since(old(State()).core, State().core) && Awake(State(), p)
      ensures ok ==> Completing(old(State()), p, a, State())
      ensures !ok ==> State() == old(State())
    {
      hide Inv, Since, Resumed, Completing;
      ghost var s := State();
      if tasks[p].waiting.Some? {
        ok := ResumeWait(p, a);
      } else if p in futexes.blocked {
        ok := ResumeFutex(p, a);
      } else {
        BlockedOnce(s, p);
        ok := ResumePipe(p, a);
      }
      if ok {
        ResumedKeeps(s, p, a);
        ResumedCompletes(s, p, a);
      }
    }

    /** The wait4 case: the record is cleared and the call made again, which may set it again. */
    method ResumeWait(p: int, a: Answer) returns (ok: bool)
      requires Valid() && p in tasks && tasks[p].state.Blocked? && tasks[p].waiting.Some?
      modifies this`tasks, this`log
      ensures p in tasks && Resumed(old(State()), p, a) == if ok then Some(State()) else None
      ensures !ok ==> State() == old(State())
    {
      hide Inv, WaitResult, WaitTasks, Resumed, DescriptorTables.State;
      ghost var s := State();
      Ordered(s);
      var w := tasks[p].waiting.value;
      ResumesWait(s, p, a, w);
      WaitAgain(tasks, order, p, w, a.stored);
      tasks := tasks[p := tasks[p].(waiting := None)];
      var r, status := Wait4(p, w, a.stored);
      if r == -EAGAIN && tasks[p].waiting.Some? { return false; }
      tasks := tasks[p := tasks[p].(waiting := None, result := r, state := Ready)];
      log := log + [Completes(p, r)] + [Waited(p, w, r, status)];
      ok := true;
    }

    method ResumeFutex(p: int, a: Answer) returns (ok: bool)
      requires Valid() && p in tasks && tasks[p].waiting.None? && p in futexes.blocked
      modifies this`tasks, this`log, futexes
      ensures p in tasks && Resumed(old(State()), p, a) == if ok then Some(State()) else None
      ensures !ok ==> State() == old(State())
    {
      hide Inv, CoreOk, W.Inv, F.Inv, F.QueueAt, F.WithQueue, F.Without;
      ghost var s := State();
      Parts(s, p);
      var resumed, result := futexes.TryResume(p, a.expired);
      if !resumed { return false; }
      tasks, log := tasks[p := tasks[p].(result := result.value, state := Ready)], log + [Completes(p, result.value)];
      assert futexes.blocked.Keys == s.futex.blocked.Keys - {p};
      ok := true;
    }

    method ResumePipe(p: int, a: Answer) returns (ok: bool)
      requires Valid() && p in tasks && tasks[p].waiting.None? && p !in futexes.blocked && tasks[p].pipe.Some?
      modifies this`tasks, this`log, tables.pipes
      ensures p in tasks && Resumed(old(State()), p, a) == if ok then Some(State()) else None
      ensures !ok ==> State() == old(State())
    {
      hide Inv, CoreOk, W.Inv, F.Inv, Attempt;
      ghost var s := State();
      Parts(s, p);
      var t := tasks[p];
      var r := TransferSyscall((t.table, t.pipe.value.fd), t.pipe.value, a.stored);
      if r.None? { return false; }
      tasks, log := tasks[p := t.(pipe := None, result := r.value, state := Ready)], log + [Completes(p, r.value)];
      assert s.core.futex - {p} == s.core.futex;
      ok := true;
    }

    // -------------------------------------------------------------- one instruction

    /** The value a call that does not block returns. */
    method Return(p: int, r: int)
      requires p in tasks && p !in futexes.blocked
      modifies this`tasks, this`log
      ensures State() == Returns(old(State()), p, r) && p in tasks
    {
      tasks, log := tasks[p := tasks[p].(result := r)], log + [Executes(p)];
      assert futexes.blocked.Keys - {p} == futexes.blocked.Keys;
    }

    /** The effect of an instruction other than exit, up to what the step of the process adds. */
    method Perform(p: int, i: Instruction) returns (ghost act: Act)
      requires Valid() && p in tasks && tasks[p].state.Running? && !i.Exit?
      modifies this`tasks, this`order, this`nextPid, this`log, tables, tables.pipes, tables.handles, futexes
      ensures tables.Grown()
      ensures Did(old(State()), p, i, act, State())
    {
      hide Inv, CoreOk, W.Inv, F.Inv, W.Step, Numbered, Did, Touches, Returns, DescriptorTables.State;
      ghost var s := State();
      Parts(s, p);
      RunningTask(s, p);
      if i.Compute? {
        Return(p, i.value);
        DidCompute(s, p, i.value);
        act := Plain(i.value);
      } else if i.Crash? || i.Stop? {
        Return(p, tasks[p].result);
        DidFault(s, p);
        act := if i.Crash? then CpuFault else Halt;
      } else if i.Transfer? {
        act := PerformTransfer(p, i.call, i.stored, i.other);
      } else if i.FutexWait? {
        act := PerformFutexWait(p, i.uaddr, i.deadline);
      } else if i.FutexWake? {
        act := PerformFutexWake(p, i.uaddr, i.count);
      } else if i.Wait? {
        act := PerformWait(p, i.wait, i.stored);
      } else if i.Fork? {
        act := PerformFork(p);
      } else if i.Clone? {
        act := PerformClone(p, i.stored);
      } else {
        act := PerformFiles(p, i);
      }
    }

    method PerformFiles(p: int, i: Instruction) returns (ghost act: Act)
      requires Valid() && p in tasks && tasks[p].state.Running? && i.OnFiles()
      modifies this`tasks, this`log, tables, tables.pipes, tables.handles
      ensures tables.Grown()
      ensures Did(old(State()), p, i, act, State())
    {
      hide Inv, CoreOk, W.Inv, F.Inv, W.Step, Numbered, Did, Touches, DescriptorTables.State;
      ghost var s := State();
      Parts(s, p);
      RunningTask(s, p);
      var r;
      ghost var op;
      r, op := FileSyscall(tasks[p].table, i);
      DidFiles(s, p, i, op, tables.State(), r);
      Return(p, r);
      act := FileCall(op, tables.State(), r);
    }

    method PerformTransfer(p: int, call: PipeCall, stored: bool, other: int) returns (ghost act: Act)
      requires Valid() && p in tasks && tasks[p].state.Running?
      modifies this`tasks, this`log, tables.pipes
      ensures Did(old(State()), p, Transfer(call, stored, other), act, State())
    {
      hide Inv, CoreOk, W.Inv, F.Inv, W.Step, Did, Numbered, DescriptorTables.State, W.Piped, Returns;
      ghost var s := State();
      Parts(s, p);
      RunningTask(s, p);
      assert p !in futexes.blocked && tables.Valid();
      hide State;
      var piped := IsPipe((tasks[p].table, call.fd));
      if piped {
        act := PerformPipe(p, call, stored, other);
      } else {
        DidNoTransfer(s, p, call, stored, other);
        Return(p, other);
        act := Plain(other);
      }
    }

    /** A call that would block leaves its record instead of a result. */
    method PerformPipe(p: int, call: PipeCall, stored: bool, other: int) returns (ghost act: Act)
      requires Valid() && p in tasks && tasks[p].state.Running? && W.Piped(tables.State(), (tasks[p].table, call.fd))
      modifies this`tasks, this`log, tables.pipes
      ensures Did(old(State()), p, Transfer(call, stored, other), act, State())
    {
      hide Inv, CoreOk, W.Inv, F.Inv, W.Step, Attempt, Did, Numbered, DescriptorTables.State, W.Piped, Put;
      ghost var s := State();
      Parts(s, p);
      RunningTask(s, p);
      var k := (tasks[p].table, call.fd);
      var r := TransferSyscall(k, call, stored);
      act := TryPipe(call, stored);
      DidTransfer(s, p, call, stored, other, Attempt(s.files, k, call, stored));
      if r.Some? {
        Return(p, r.value);
      } else {
        Park(p, call);
      }
    }

    method Park(p: int, call: PipeCall)
      requires p in tasks && p !in futexes.blocked
      modifies this`tasks, this`log
      ensures State() == old(State()).(core := Put(old(State()).core, p, old(tasks)[p].(pipe := Some(call)),
                                                   [Executes(p)], false))
    {
      tasks, log := tasks[p := tasks[p].(pipe := Some(call))], log + [Executes(p)];
      assert futexes.blocked.Keys - {p} == futexes.blocked.Keys;
    }

    method PerformFutexWait(p: int, a: u32, deadline: bool) returns (ghost act: Act)
      requires Valid() && p in tasks && tasks[p].state.Running?
      modifies this`log, futexes
      ensures Did(old(State()), p, FutexWait(a, deadline), act, State())
    {
      hide Inv, CoreOk, W.Inv, F.Inv, F.QueueAt, F.WithQueue, Did, DescriptorTables.State, Numbered;
      ghost var s := State();
      Parts(s, p);
      RunningTask(s, p);
      var r := futexes.Wait(p, a, deadline);
      log := log + [Executes(p)];
      assert futexes.blocked.Keys == s.core.futex + {p};
      DidFutexWait(s, p, a, deadline, State());
      act := FutexCall(F.Waiting(p, a, deadline), 0);
    }

    method PerformFutexWake(p: int, a: u32, n: u32) returns (ghost act: Act)
      requires Valid() && p in tasks && tasks[p].state.Running?
      modifies this`tasks, this`log, futexes
      ensures Did(old(State()), p, FutexWake(a, n), act, State())
    {
      hide Inv, CoreOk, W.Inv, F.Inv, F.QueueAt, F.WithQueue, Did, DescriptorTables.State, Numbered;
      ghost var s := State();
      Parts(s, p);
      RunningTask(s, p);
      var woken := futexes.Wake(a, n);
      DidFutexWake(s, p, a, n);
      Return(p, woken);
      act := FutexCall(F.Waking(a, n), woken);
    }

    method PerformWait(p: int, w: WaitCall, stored: bool) returns (ghost act: Act)
      requires Valid() && p in tasks && tasks[p].state.Running?
      modifies this`tasks, this`log
      ensures Did(old(State()), p, Wait(w, stored), act, State())
    {
      hide Inv, FirstMatch, W.Inv, WaitResult, Did, DescriptorTables.State;
      ghost var s := State();
      Ordered(s);
      RunningTask(s, p);
      var r, status := Wait4(p, w, stored);
      tasks := tasks[p := tasks[p].(result := r)];
      log := log + [Executes(p)] + if r == -EAGAIN then [] else [Waited(p, w, r, status)];
      act := WaitChild(w, stored);
      DidWait(s, p, w, stored, State());
    }

    /** The next number is used up, and taken by a new task if there is to be one. */
    method Launch(p: int, table: int, made: bool)
      modifies this`tasks, this`order, this`nextPid
      ensures State() == old(State()).(core := if made then Born(old(State()).core, Child(p, table))
                                       else old(State()).core.(nextPid := old(nextPid) + 1))
    {
      var pid := nextPid;
      nextPid := pid + 1;
      if made { tasks, order := tasks[pid := Child(p, table)], order + [pid]; }
    }

    method PerformFork(p: int) returns (ghost act: Act)
      requires Valid() && p in tasks && tasks[p].state.Running?
      modifies this`tasks, this`order, this`nextPid, this`log, tables, tables.pipes, tables.handles
      ensures tables.Grown()
      ensures Did(old(State()), p, Fork, act, State())
    {
      hide Inv, CoreOk, W.Inv, F.Inv, W.Step, W.Unused, Numbered, Did, DescriptorTables.State, Born;
      ghost var s := State();
      Parts(s, p);
      RunningTask(s, p);
      FreshTable(s);
      ghost var visited, mids := CopyTable(tasks[p].table, nextPid);
      DidFork(s, p, visited, mids, tables.State());
      Return(p, nextPid);
      Launch(p, nextPid, true);
      act := ForkCall(visited, mids);
    }

    /** Cloning a thread copies the descriptors as fork does, then drops the copies and shares the parent's
        table; the number is used up even when it cannot be stored. */
    method PerformClone(p: int, stored: bool) returns (ghost act: Act)
      requires Valid() && p in tasks && tasks[p].state.Running?
      modifies this`tasks, this`order, this`nextPid, this`log, tables, tables.pipes, tables.handles
      ensures tables.Grown()
      ensures Did(old(State()), p, Clone(stored), act, State())
    {
      hide Inv, CoreOk, W.Inv, F.Inv, W.Step, W.Unused, Numbered, Did, DescriptorTables.State, Born;
      ghost var s := State();
      Parts(s, p);
      RunningTask(s, p);
      FreshTable(s);
      var table := tasks[p].table;
      ghost var visited, mids := CopyTable(table, nextPid);
      DidClone(s, p, stored, visited, mids, tables.State());
      Return(p, if stored then nextPid else -EFAULT);
      Launch(p, table, stored);
      act := CloneCall(stored, visited, mids);
    }

    /** After the instruction, the step of the process blocks a task that has a block record, and stops one
        that has faulted or halted. */
    method Settle(p: int, fault: bool, ghost act: Act)
      requires p in tasks && !act.ExitCall? && (fault <==> act.CpuFault? || act.Halt?)
      modifies this`tasks, this`log
      ensures State() == Settled(old(State()), p, act)
    {
      hide Last, DescriptorTables.State;
      var t := tasks[p];
      if t.waiting.Some? || t.pipe.Some? || p in futexes.blocked {
        tasks, log := tasks[p := t.(state := Blocked)], log + [Blocks(p)];
        assert p in futexes.blocked ==> futexes.blocked.Keys + {p} == futexes.blocked.Keys;
      } else if fault {
        tasks := tasks[p := t.(state := Faulted)];
        assert log + [] == log;
      }
      assert p !in futexes.blocked ==> futexes.blocked.Keys - {p} == futexes.blocked.Keys;
    }

    /** exit: closes the descriptors, unless the task is a thread. */
    method PerformExit(p: int, code: int) returns (ghost act: Act)
      requires Valid() && p in tasks && tasks[p].state.Running?
      modifies this`tasks, this`log, tables, tables.pipes, tables.handles
      ensures tables.Grown()
      ensures Fits(old(State()).files, Exit(code), old(tasks)[p].table, act) && Enabled(old(State()), p, act)
              && State() == Executed(old(State()), p, act)
    {
      hide Inv, CoreOk, W.Inv, F.Inv, W.Step, Numbered, Executed, Enabled, Put, DescriptorTables.State;
      ghost var s := State();
      Parts(s, p);
      RunningTask(s, p);
      ghost var visited, mids := [], [];
      if tasks[p].table == p { visited, mids := CloseTable(p); }
      act := ExitCall(code, visited, mids);
      DidExit(s, p, code, visited, mids, tables.State());
      Return(p, 0);
      MarkExited(p, code);
    }

    method MarkExited(p: int, code: int)
      requires p in tasks && p !in futexes.blocked
      modifies this`tasks
      ensures State() == Exits(old(State()), p, code)
    {
      tasks := tasks[p := tasks[p].(state := Exited, exitCode := code)];
      assert log + [] == log;
      assert futexes.blocked.Keys - {p} == futexes.blocked.Keys;
    }

    method CloseTable(p: int) returns (ghost visited: seq<W.Key>, ghost mids: seq<W.World>)
      requires tables.Valid()
      modifies tables, tables.pipes, tables.handles
      ensures tables.Grown()
      ensures tables.Valid()
      ensures W.Step(old(tables.State()), W.Sheds(W.Owned(old(tables.State()).fds.Keys, p), visited, mids),
                     tables.State())
    {
      hide W.Inv, W.Step;
      visited, mids := tables.CloseOnExit(p);
    }

    /** One instruction of a running task. */
    method Instruct(p: int, i: Instruction) returns (ok: bool, ghost act: Act)
      requires Valid() && p in tasks && tasks[p].state.Running?
      modifies this`tasks, this`order, this`nextPid, this`log, tables, tables.pipes, tables.handles, futexes
      ensures tables.Grown()
      ensures Valid() && Since(old(State()).core, State().core) && p in tasks
      ensures Fits(old(State()).files, i, old(tasks)[p].table, act) && Enabled(old(State()), p, act)
              && State() == Executed(old(State()), p, act)
      ensures Does(old(State()), p, act, State())
      ensures ok <==> !tasks[p].state.Faulted?
    {
      hide Inv, Since, Did, Executed, Enabled, Called, Settled, DescriptorTables.State, Touches, Does;
      ghost var s := State();
      ok := !i.Crash? && !i.Stop?;
      if i.Exit? {
        act := PerformExit(p, i.code);
        ExecutedKeeps(s, p, act);
        Outcome(s, p, act);
      } else {
        act := Perform(p, i);
        Finish(s, p, i, act, State());
        Settle(p, !ok, act);
      }
      ExecutedDoes(s, p, act);
    }

    // -------------------------------------------------------------- one step of a process

    method Dispatch(p: int)
      requires p in tasks
      modifies this`tasks
      ensures State() == Dispatched(old(State()), p)
    {
      tasks := tasks[p := tasks[p].(state := Running)];
      assert log + [] == log;
      assert p in futexes.blocked ==> futexes.blocked.Keys + {p} == futexes.blocked.Keys;
      assert p !in futexes.blocked ==> futexes.blocked.Keys - {p} == futexes.blocked.Keys;
    }

    /** A signal is ignored, kills the task, or is handed to its handler. */
    method TakeSignal(p: int, sig: SignalTaken) returns (ok: bool)
      requires p in tasks && tasks[p].state.Running? && !sig.NoSignal?
      modifies this`tasks
      ensures var c := old(State()).core;
              State() == old(State()).(core := Put(c, p, Signalled(c.tasks[p], sig), [], p in c.futex))
      ensures p in tasks && tasks[p] == Signalled(old(tasks)[p], sig) && (ok <==> !tasks[p].state.Faulted?)
      ensures sig.Deadly? ==> tasks[p] == old(tasks)[p].(state := Exited, exitCode := 128 + sig.number)
      ensures sig.Handled? && !sig.delivered ==> tasks[p] == old(tasks)[p].(state := Faulted)
      ensures sig.Ignored? || (sig.Handled? && sig.delivered) ==> tasks == old(tasks)
    {
      ok := true;
      ghost var t := tasks[p];
      match sig {
        case Deadly(n) => tasks := tasks[p := tasks[p].(state := Exited, exitCode := 128 + n)];
        case Handled(delivered) =>
          if !delivered {
            tasks := tasks[p := tasks[p].(state := Faulted)];
            ok := false;
          }
        case _ =>
      }
      assert tasks == old(tasks)[p := Signalled(t, sig)];
      assert log + [] == log;
      assert p in futexes.blocked ==> futexes.blocked.Keys + {p} == futexes.blocked.Keys;
      assert p !in futexes.blocked ==> futexes.blocked.Keys - {p} == futexes.blocked.Keys;
    }

    /** A task that is not blocked takes a signal or executes an instruction. */
    method RunOnce(p: int, ghost a: Answer, sig: SignalTaken, i: Instruction) returns (ok: bool, ghost act: Act)
      requires Valid() && p in tasks && (tasks[p].state.Ready? || tasks[p].state.Running?)
      modifies this`tasks, this`order, this`nextPid, this`log, tables, tables.pipes, tables.handles, futexes
      ensures tables.Grown()
      ensures Valid() && Acts(old(State()), Turn(p, a, sig, act), i, State()) && p in tasks
      ensures ok <==> !tasks[p].state.Faulted?
    {
      hide Inv, Since, Executed, Enabled, Acts, Put, DescriptorTables.State, Fits;
      ghost var s := State();
      DispatchedKeeps(s, p);
      act := Plain(0);
      Dispatch(p);
      if sig.NoSignal? {
        ok, act := Instruct(p, i);
      } else {
        ok := TakeSignal(p, sig);
      }
      DoneActs(s, Turn(p, a, sig, act), i, State());
    }

    /** One step of a process: nothing if it has exited, or is blocked and cannot resume; else a signal or
        an instruction.  Fails exactly when the process is left faulted. */
    method ProcessStep(p: int, a: Answer, sig: SignalTaken, i: Instruction) returns (ok: bool, ghost act: Act)
      requires Valid() && p in tasks
      modifies this`tasks, this`order, this`nextPid, this`log, tables, tables.pipes, tables.handles, futexes
      ensures tables.Grown()
      ensures Valid() && p in tasks && Took(old(State()), Turn(p, a, sig, act), i, State())
      ensures ok <==> !tasks[p].state.Faulted?
    {
      hide Inv, Since, Acts, Resumed, Took, DescriptorTables.State;
      act := Plain(0);
      ghost var s, y := State(), State();
      TookNothing(s, Turn(p, a, sig, act), i);
      if tasks[p].state.Exited? { return true, act; }
      if tasks[p].state.Faulted? { return false, act; }
      if tasks[p].state.Blocked? {
        var resumed := Resume(p, a);
        if !resumed { return true, act; }
        y := State();
        KeepsTable(s, p, a);
      }
      ok, act := RunOnce(p, a, sig, i);
      ActsTook(s, y, Turn(p, a, sig, act), i, State());
    }

    /** Lets one task step if it can run. */
    method TryRun(p: int, a: Answer, sig: SignalTaken, i: Instruction) returns (ran: bool, ok: bool, ghost act: Act)
      requires Valid() && p in tasks
      modifies this`tasks, this`order, this`nextPid, this`log, tables, tables.pipes, tables.handles, futexes
      ensures tables.Grown()
      ensures Valid() && p in tasks
      ensures ran <==> old(CanRun(State(), p, a))
      ensures !ran ==> ok && State() == old(State())
      ensures !ran ==> tables.pipes == old(tables.pipes) && tables.handles == old(tables.handles)
      ensures ran ==> Took(old(State()), Turn(p, a, sig, act), i, State()) && (ok <==> !tasks[p].state.Faulted?)
    {
      hide Inv, Since, Resumed, Took, DescriptorTables.State;
      ghost var s := State();
      act := Plain(0);
      if tasks[p].reaped || tasks[p].state.Exited? { return false, true, act; }
      if tasks[p].state.Blocked? {
        var resumed := Resume(p, a);
        if !resumed { return false, true, act; }
      }
      ghost var y := State();
      ok, act := ProcessStep(p, a, sig, i);
      if s != y { TookResumed(s, Turn(p, a, sig, act), i, State()); }
      ran := true;
    }

    /** Lets the earliest-created task that can run take one step.  There is no progress exactly when
        every task that has not exited is stuck. */
    method Step(answers: int -> Answer, sig: SignalTaken, i: Instruction)
      returns (progress: bool, ok: bool, ghost u: Turn)
      requires Valid()
      modifies this, tables, tables.pipes, tables.handles, futexes
      ensures tables.Grown()
      ensures Valid()
      ensures progress ==> ok && steps == old(steps) + 1
      ensures !ok ==> steps == old(steps)
      ensures ok && !progress <==> AllStuck(old(State()), answers)
      ensures ok && !progress ==> State() == old(State()) && steps == old(steps)
      ensures progress || !ok ==>
                && Picked(old(State()), u.pid, answers) && u.answer == answers(u.pid) && u.signal == sig
                && Took(old(State()), u, i, State()) && u.pid in tasks && (ok <==> !tasks[u.pid].state.Faulted?)
      ensures progress || !ok ==> LeastRunnable(old(State()), u.pid, answers)
    {
      hide Inv, Since, CanRun, Stuck, Took, DescriptorTables.State, LeastRunnable;
      ghost var s := State();
      Ordered(s);
      var snapshot := order;
      ghost var act := Plain(0);
      u := Turn(0, answers(0), sig, act);
      for n := 0 to |snapshot|
        invariant State() == s && Valid() && steps == old(steps) && tables.pipes == old(tables.pipes)
                  && tables.handles == old(tables.handles)
        invariant forall j :: 0 <= j < n ==> !CanRun(s, snapshot[j], answers(snapshot[j]))
      {
        var p := snapshot[n];
        assert p in s.core.order;
        var ran;
        ran, ok, act := TryRun(p, answers(p), sig, i);
        if !ran { continue; }
        RunsUnlessStuck(s, p, answers(p));
        assert PickedAt(s, n, answers);
        PickedLeast(s, p, answers);
        u := Turn(p, answers(p), sig, act);
        if !ok { return false, false, u; }
        steps := steps + 1;
        return true, true, u;
      }
      NonePicked(s, answers);
      return false, true, u;
    }

    /** Some task that has not been reaped is blocked. */
    method HasBlockedTasks() returns (b: bool)
      ensures b <==> exists p :: p in tasks && !tasks[p].reaped && tasks[p].state.Blocked?
    {
      var todo: set<int> := tasks.Keys;
      while todo != {}
        invariant todo <= tasks.Keys
        invariant forall p :: p in tasks && p !in todo ==> tasks[p].reaped || !tasks[p].state.Blocked?
      {
        HasMember(todo);
        var p :| p in todo;
        if !tasks[p].reaped && tasks[p].state.Blocked? { return true; }
        todo := todo - {p};
      }
      b := false;
    }

    /** Runs until no task can go on, a task faults, the step limit is reached, or the context is
        cancelled, which is noticed in round `cancelled`.  In each round the first task that can run takes a
        turn, or all are stuck; `sys` and `rounds` are the states and turns. */
    method Run(answers: nat -> int -> Answer, sigs: nat -> SignalTaken, instructions: nat -> Instruction,
               cancelled: nat, maxSteps: nat)
      returns (r: RunResult, ghost sys: seq<Sys>, ghost rounds: seq<Option<Turn>>)
      requires Valid()
      modifies this, tables, tables.pipes, tables.handles, futexes
      ensures tables.Grown()
      ensures Valid() && Rounds(answers, sigs, instructions, sys, rounds)
      ensures sys[0] == old(State()) && sys[|rounds|] == State()
      ensures |rounds| <= cancelled && (r.Cancelled? ==> |rounds| == cancelled)
      ensures r.Done? ==> forall p :: p in tasks ==> tasks[p].state.Exited?
      ensures r.Failed? ==> exists p :: p in tasks && tasks[p].state.Faulted?
      ensures r.LimitExceeded? ==> 0 < maxSteps <= steps
      ensures steps == old(steps) + |Turns(rounds)| - if r.Failed? then 1 else 0
      ensures 0 < maxSteps && old(steps) <= maxSteps ==> steps <= maxSteps
    {
      hide Inv, Since, DescriptorTables.State, Took, Picked, AllStuck, Rounds;
      sys, rounds := [State()], [];
      RoundsStart(answers, sigs, instructions, State());
      for n := 0 to cancelled
        invariant Valid() && tables.Grown() && Rounds(answers, sigs, instructions, sys, rounds)
        invariant |rounds| == n && |sys| == n + 1 && sys[0] == old(State()) && sys[n] == State()
        invariant steps == old(steps) + |Turns(rounds)|
        invariant 0 < maxSteps && old(steps) <= maxSteps ==> steps <= maxSteps
      {
        if maxSteps != 0 && steps >= maxSteps { return LimitExceeded, sys, rounds; }
        ghost var u;
        var progress, ok;
        progress, ok, u := Step(answers(n), sigs(n), instructions(n));
        ghost var turn := if progress || !ok then Some(u) else None;
        RoundTaken(answers, sigs, instructions, sys, rounds, turn, State());
        sys, rounds := sys + [State()], rounds + [turn];
        if !ok { return Failed, sys, rounds; }
        if !progress {
          var waiting := HasBlockedTasks();
          if !waiting {
            StuckBlocked(State(), answers(n));
            return Done, sys, rounds;
          }
        }
      }
      r := Cancelled;
    }
  }

  /** In round `n` the first task that can run took a turn, or all were stuck. */
  ghost predicate Round(answers: nat -> int -> Answer, sigs: nat -> SignalTaken, instructions: nat -> Instruction,
                        n: nat, s: Sys, turn: Option<Turn>, t: Sys) {
    match turn
    case None => AllStuck(s, answers(n)) && t == s
    case Some(u) =>
      Picked(s, u.pid, answers(n)) && u.answer == answers(n)(u.pid) && u.signal == sigs(n)
        && Took(s, u, instructions(n), t)
  }

  ghost predicate Rounds(answers: nat -> int -> Answer, sigs: nat -> SignalTaken, instructions: nat -> Instruction,
                         sys: seq<Sys>, rounds: seq<Option<Turn>>) {
    && |sys| == |rounds| + 1
    && forall n :: 0 <= n < |rounds| ==> Round(answers, sigs, instructions, n, sys[n], rounds[n], sys[n + 1])
  }

  ghost function Turns(rounds: seq<Option<Turn>>): seq<Turn> {
    if rounds == [] then []
    else
      var last := rounds[|rounds| - 1];
      Turns(rounds[..|rounds| - 1]) + if last.Some? then [last.value] else []
  }

  lemma RoundsStart(answers: nat -> int -> Answer, sigs: nat -> SignalTaken, instructions: nat -> Instruction, s: Sys)
    ensures Rounds(answers, sigs, instructions, [s], [])
  {
  }

  /** The turns of a run are a path of system steps. */
  lemma {:induction false} RoundsPath(answers: nat -> int -> Answer, sigs: nat -> SignalTaken,
                                      instructions: nat -> Instruction, sys: seq<Sys>, rounds: seq<Option<Turn>>)
    returns (ss: seq<Sys>)
    requires Rounds(answers, sigs, instructions, sys, rounds)
    ensures Path(ss, Turns(rounds)) && ss[0] == sys[0] && ss[|Turns(rounds)|] == sys[|rounds|]
    decreases rounds
  {
    hide Took, Picked, AllStuck, Path, Goes;
    if rounds == [] {
      ss := [sys[0]];
      PathStart(sys[0]);
    } else {
      var n := |rounds| - 1;
      forall k | 0 <= k < n
        ensures Round(answers, sigs, instructions, k, sys[..n + 1][k], rounds[..n][k], sys[..n + 1][k + 1]) {
        assert Round(answers, sigs, instructions, k, sys[k], rounds[k], sys[k + 1]);
      }
      var xs := RoundsPath(answers, sigs, instructions, sys[..n + 1], rounds[..n]);
      assert Round(answers, sigs, instructions, n, sys[n], rounds[n], sys[n + 1]);
      PathLength(xs, Turns(rounds[..n]));
      if rounds[n].Some? {
        TookGoes(sys[n], rounds[n].value, instructions(n), sys[n + 1]);
        PathGrows(xs, Turns(rounds[..n]), rounds[n].value, sys[n + 1]);
        ss := xs + [sys[n + 1]];
      } else {
        ss := xs;
        assert Turns(rounds) == Turns(rounds[..n]);
      }
    }
  }

  lemma PathLength(ss: seq<Sys>, us: seq<Turn>)
    requires Path(ss, us)
    ensures |ss| == |us| + 1
  {
  }

  lemma RoundTaken(answers: nat -> int -> Answer, sigs: nat -> SignalTaken, instructions: nat -> Instruction,
                   sys: seq<Sys>, rounds: seq<Option<Turn>>, turn: Option<Turn>, t: Sys)
    requires |sys| == |rounds| + 1 && Rounds(answers, sigs, instructions, sys, rounds)
    requires Round(answers, sigs, instructions, |rounds|, sys[|rounds|], turn, t)
    ensures Rounds(answers, sigs, instructions, sys + [t], rounds + [turn])
    ensures Turns(rounds + [turn]) == Turns(rounds) + if turn.Some? then [turn.value] else []
  {
    hide Round;
    var xs, rs := sys + [t], rounds + [turn];
    forall n | 0 <= n < |rs| ensures Round(answers, sigs, instructions, n, xs[n], rs[n], xs[n + 1]) {
      if n < |rounds| { assert Round(answers, sigs, instructions, n, sys[n], rounds[n], sys[n + 1]); }
    }
    assert rs[..|rounds|] == rounds;
  }

  /** The turn was possible and was taken, and its act was that of the instruction. */
  ghost predicate Took(s: Sys, u: Turn, i: Instruction, t: Sys) {
    && Possible(s, u) && t == Stepped(s, u)
    && (Woken(s, u.pid, u.answer).Some? && u.signal.NoSignal? ==>
        Fits(Woken(s, u.pid, u.answer).value.files, i, s.core.tasks[u.pid].table, u.act))
  }

  /** A task that is not blocked acted, by the instruction or by taking the signal. */
  ghost predicate Acts(s: Sys, u: Turn, i: Instruction, t: Sys) {
    && u.pid in s.core.tasks && t == Acted(s, u)
    && (u.signal.NoSignal? ==>
        Fits(s.files, i, s.core.tasks[u.pid].table, u.act) && Enabled(Dispatched(s, u.pid), u.pid, u.act))
  }

  lemma DoneActs(s: Sys, u: Turn, i: Instruction, t: Sys)
    requires Inv(s) && u.pid in s.core.tasks && (s.core.tasks[u.pid].state.Ready? || s.core.tasks[u.pid].state.Running?)
    requires var x := Dispatched(s, u.pid);
             if u.signal.NoSignal? then Fits(x.files, i, x.core.tasks[u.pid].table, u.act) && Enabled(x, u.pid, u.act)
               && t == Executed(x, u.pid, u.act)
             else t == x.(core := Put(x.core, u.pid, Signalled(x.core.tasks[u.pid], u.signal), [],
                                      u.pid in x.core.futex))
    ensures Inv(t) && Acts(s, u, i, t)
  {
    hide Inv, Since, Executed, Enabled, Fits;
    ActedKeeps(s, u);
  }

  lemma TookNothing(s: Sys, u: Turn, i: Instruction)
    requires u.pid in s.core.tasks
    ensures Woken(s, u.pid, u.answer).None? ==> Took(s, u, i, s)
  {
  }

  lemma ActsTook(s: Sys, y: Sys, u: Turn, i: Instruction, t: Sys)
    requires Acts(y, u, i, t) && u.pid in s.core.tasks && Woken(s, u.pid, u.answer) == Some(y)
    requires y.core.tasks[u.pid].table == s.core.tasks[u.pid].table
    ensures Took(s, u, i, t)
  {
    hide Enabled, Fits, Acted, Woken;
  }

  lemma KeepsTable(s: Sys, p: int, a: Answer)
    requires p in s.core.tasks && Resumed(s, p, a).Some?
    ensures Resumed(s, p, a).value.core.tasks[p].table == s.core.tasks[p].table
  {
    hide WaitResult, Attempt;
  }

  /** Resuming first and then stepping is one step. */
  lemma TookResumed(s: Sys, u: Turn, i: Instruction, t: Sys)
    requires u.pid in s.core.tasks && s.core.tasks[u.pid].state.Blocked? && Resumed(s, u.pid, u.answer).Some?
    requires var y := Resumed(s, u.pid, u.answer).value; Awake(y, u.pid) && Took(y, u, i, t)
    ensures Took(s, u, i, t)
  {
    KeepsTable(s, u.pid, u.answer);
    hide Resumed, Enabled, Acted, Fits;
  }

  lemma TookGoes(s: Sys, u: Turn, i: Instruction, t: Sys)
    requires Took(s, u, i, t)
    ensures Goes(s, u, t)
  {
  }

  lemma PathStart(s: Sys)
    ensures Path([s], [])
  {
  }

  ghost predicate AllStuck(s: Sys, answers: int -> Answer) {
    forall p :: p in s.core.tasks && !s.core.tasks[p].state.Exited? ==> Stuck(s, p, answers(p))
  }

  ghost predicate PickedAt(s: Sys, n: nat, answers: int -> Answer) {
    && n < |s.core.order| && CanRun(s, s.core.order[n], answers(s.core.order[n]))
    && forall j :: 0 <= j < n ==> !CanRun(s, s.core.order[j], answers(s.core.order[j]))
  }

  /** The earliest-created task that can run. */
  ghost predicate Picked(s: Sys, p: int, answers: int -> Answer) {
    exists n: nat :: PickedAt(s, n, answers) && s.core.order[n] == p
  }

  ghost predicate LeastRunnable(s: Sys, p: int, answers: int -> Answer) {
    CanRun(s, p, answers(p)) && forall q :: CanRun(s, q, answers(q)) ==> p <= q
  }

  /** Numbers are given in order of creation, so that is the one with the least number. */
  lemma PickedLeast(s: Sys, p: int, answers: int -> Answer)
    requires Inv(s) && Picked(s, p, answers)
    ensures LeastRunnable(s, p, answers)
  {
    var n: nat :| PickedAt(s, n, answers) && s.core.order[n] == p;
    forall q | CanRun(s, q, answers(q)) ensures p <= q {
      assert q in s.core.order;
      var k :| 0 <= k < |s.core.order| && s.core.order[k] == q;
      hide CanRun;
      assert n <= k;
    }
  }

  lemma NonePicked(s: Sys, answers: int -> Answer)
    requires Inv(s) && forall j :: 0 <= j < |s.core.order| ==> !CanRun(s, s.core.order[j], answers(s.core.order[j]))
    ensures AllStuck(s, answers)
  {
    Ordered(s);
    hide Inv, CanRun, Stuck;
    forall p | p in s.core.tasks && !s.core.tasks[p].state.Exited? ensures Stuck(s, p, answers(p)) {
      assert p in s.core.order;
      RunsUnlessStuck(s, p, answers(p));
    }
  }

  /** If no task is blocked, none is stuck. */
  lemma StuckBlocked(s: Sys, answers: int -> Answer)
    requires Inv(s) && AllStuck(s, answers) && forall p :: p in s.core.tasks && !s.core.tasks[p].reaped ==>
             !s.core.tasks[p].state.Blocked?
    ensures forall p :: p in s.core.tasks ==> s.core.tasks[p].state.Exited?
  {
    hide Inv, StuckPipe, StuckChild;
    forall p | p in s.core.tasks ensures s.core.tasks[p].state.Exited? {
      BlockedOnce(s, p);
    }
  }

  lemma HasMember(s: set<int>)
    ensures s == {} || exists p :: p in s
  {
    if forall p :: p !in s { assert s == {}; }
  }

  lemma FreshTable(s: Sys)
    requires Inv(s)
    ensures W.Unused(s.files.fds, s.core.nextPid)
  {
  }

  lemma Ordered(s: Sys)
    requires Inv(s)
    ensures forall p :: p in s.core.tasks <==> p in s.core.order
    ensures forall p :: p in s.core.tasks ==> p > 0
  {
  }

  lemma RunningTask(s: Sys, p: int)
    requires Inv(s) && p in s.core.tasks && s.core.tasks[p].state.Running?
    ensures p !in s.core.futex && p !in s.futex.blocked && s.core.tasks[p].waiting.None? && s.core.tasks[p].pipe.None?
  {
    Unblocked(s.core, p);
  }
}
