/** Tasks, their blocked system calls, wait4, and the log of what happens to them. */
module Tasks {
  import opened Words
  import opened Errno

  datatype RunState = Ready | Running | Blocked | Exited | Faulted

  /** A wait4 call: the child asked for (any, unless positive), whether a status is to be stored, and
      WNOHANG. */
  datatype WaitCall = WaitCall(requested: int, status: bool, nohang: bool)

  /** A read or write of a pipe descriptor: how many bytes to read, or the bytes to write. */
  datatype PipeCall = PipeCall(fd: int, write: bool, count: nat, data: seq<u8>)

  /** A task: the table its descriptors are in (its own, unless it is a thread), its wait4 and pipe block
      records, and the value its last system call returned. */
  datatype Task = Task(
    state: RunState, parent: int, table: int, reaped: bool, exitCode: int,
    waiting: Option<WaitCall>, pipe: Option<PipeCall>, result: int)

  /** What happens, in order: a task executes an instruction, a system call blocks, a blocked call
      completes, a wait4 returns and stores a status word or none. */
  datatype Event = Executes(pid: int) | Blocks(pid: int) | Completes(pid: int, result: int)
    | Waited(pid: int, call: WaitCall, result: int, status: Option<int>)

  type Log = seq<Event>

  // ---------------------------------------------------------------- logs

  /** The task has a blocked call that has not completed. */
  ghost predicate Pending(log: Log, p: int) {
    if log == [] then false
    else
      var e := log[|log| - 1];
      if e == Blocks(p) then true
      else if e.Completes? && e.pid == p then false
      else Pending(log[..|log| - 1], p)
  }

  /** The child was returned by a wait4. */
  ghost predicate Returned(log: Log, c: int) {
    exists i :: 0 <= i < |log| && log[i].Waited? && log[i].result == c
  }

  /** An event may follow a log: nothing executes or blocks while a call is pending, only a pending call
      completes, and no child is returned twice. */
  ghost predicate Follows(log: Log, e: Event) {
    match e
    case Executes(p) => !Pending(log, p)
    case Blocks(p) => !Pending(log, p)
    case Completes(p, _) => Pending(log, p)
    case Waited(_, _, r, _) => r > 0 ==> !Returned(log, r)
  }

  ghost predicate LogOk(log: Log) {
    forall i :: 0 <= i < |log| ==> Follows(log[..i], log[i])
  }

  lemma LogGrows(log: Log, e: Event)
    requires LogOk(log) && Follows(log, e)
    ensures LogOk(log + [e])
  {
    var x := log + [e];
    forall i | 0 <= i < |x| ensures Follows(x[..i], x[i]) {
      if i < |log| { assert x[..i] == log[..i]; } else { assert x[..i] == log; }
    }
  }

  lemma PendingGrows(log: Log, e: Event, p: int)
    ensures Pending(log + [e], p) <==> e == Blocks(p) || (Pending(log, p) && !(e.Completes? && e.pid == p))
  {
    assert (log + [e])[..|log|] == log;
  }

  lemma ReturnedGrows(log: Log, e: Event, c: int)
    ensures Returned(log + [e], c) <==> Returned(log, c) || (e.Waited? && e.result == c)
  {
    var x := log + [e];
    if Returned(log, c) {
      var i :| 0 <= i < |log| && log[i].Waited? && log[i].result == c;
      assert x[i] == log[i];
    }
    if e.Waited? && e.result == c { assert x[|log|] == e; }
    if Returned(x, c) && !Returned(log, c) {
      var i :| 0 <= i < |x| && x[i].Waited? && x[i].result == c;
      assert i == |log|;
    }
  }

  /** While a call is pending its task executes no instruction and blocks on nothing else. */
  lemma {:induction false} StaysPending(log: Log, p: int, i: nat, j: nat)
    requires i < j <= |log| && log[i] == Blocks(p)
    requires forall k :: i < k < j ==> !(log[k].Completes? && log[k].pid == p)
    ensures Pending(log[..j], p)
    decreases j
  {
    assert log[..j] == log[..j - 1] + [log[j - 1]];
    PendingGrows(log[..j - 1], log[j - 1], p);
    if i < j - 1 { StaysPending(log, p, i, j - 1); }
  }

  lemma NothingWhileBlocked(log: Log, p: int, i: nat, j: nat)
    requires LogOk(log) && i < j < |log| && log[i] == Blocks(p)
    requires forall k :: i < k < j ==> !(log[k].Completes? && log[k].pid == p)
    ensures log[j] != Executes(p) && log[j] != Blocks(p)
  {
    StaysPending(log, p, i, j);
    assert Follows(log[..j], log[j]);
  }

  lemma {:induction false} StaysClear(log: Log, p: int, i: nat, j: nat)
    requires i < j <= |log| && log[i].Completes? && log[i].pid == p
    requires forall k :: i < k < j ==> log[k] != Blocks(p)
    ensures !Pending(log[..j], p)
    decreases j
  {
    assert log[..j] == log[..j - 1] + [log[j - 1]];
    PendingGrows(log[..j - 1], log[j - 1], p);
    if i < j - 1 { StaysClear(log, p, i, j - 1); }
  }

  /** A blocked call completes at most once: between two completions the task has blocked again. */
  lemma CompletesOnce(log: Log, p: int, i: nat, j: nat)
    requires LogOk(log) && i < j < |log| && log[i].Completes? && log[j].Completes? && log[i].pid == p == log[j].pid
    ensures exists k :: i < k < j && log[k] == Blocks(p)
  {
    assert Follows(log[..j], log[j]);
    if forall k :: i < k < j ==> log[k] != Blocks(p) { StaysClear(log, p, i, j); }
  }

  /** No child is returned by two wait4 calls. */
  lemma ReturnedOnce(log: Log, i: nat, j: nat)
    requires LogOk(log) && i < j < |log| && log[i].Waited? && log[j].Waited? && log[i].result > 0
    ensures log[i].result != log[j].result
  {
    assert log[..j][i] == log[i];
    assert Follows(log[..j], log[j]);
  }

  // ---------------------------------------------------------------- tasks and their block records

  /** The tasks in order of creation, the log, and the tasks with a futex block record. */
  datatype Core = Core(tasks: map<int, Task>, order: seq<int>, nextPid: int, log: Log, futex: set<int>)

  predicate AnyRecord(t: Task, futex: bool) { t.waiting.Some? || t.pipe.Some? || futex }

  predicate OneRecord(t: Task, futex: bool) {
    !(t.waiting.Some? && t.pipe.Some?) && !(t.waiting.Some? && futex) && !(t.pipe.Some? && futex)
  }

  /** Between steps a task is Blocked exactly when one of its block records is set, which is when it has
      a pending call; only exited tasks are reaped, those that a wait4 returned. */
  ghost predicate TaskOk(log: Log, p: int, t: Task, futex: bool) {
    && (t.state.Blocked? <==> AnyRecord(t, futex)) && OneRecord(t, futex)
    && (Pending(log, p) <==> AnyRecord(t, futex))
    && (t.reaped ==> t.state.Exited?)
    && (t.reaped <==> Returned(log, p))
  }

  /** What a wait4 returned: an exited child of the caller, the one it asked for if it asked for one, with the
      low byte of its exit code as the second byte of the status word; or 0 with WNOHANG, ECHILD or EFAULT. */
  ghost predicate WaitOk(tasks: map<int, Task>, e: Event) {
    e.Waited? ==>
      && (|| e.result == -ECHILD || e.result == -EFAULT || (e.result == 0 && e.call.nohang)
          || (&& e.result > 0 && e.result in tasks && tasks[e.result].state.Exited?
              && tasks[e.result].parent == e.pid && (e.call.requested > 0 ==> e.result == e.call.requested)))
      && (e.status.Some? <==> e.result > 0 && e.call.status)
      && (e.status.Some? ==> e.status.value == tasks[e.result].exitCode % 0x100 * 0x100)
  }

  ghost predicate CoreOk(c: Core) {
    && LogOk(c.log) && 0 < c.nextPid
    && (forall p :: p in c.tasks <==> p in c.order)
    && (forall p :: p in c.tasks ==> 0 < p < c.nextPid && 0 < c.tasks[p].table < c.nextPid)
    && (forall p :: p in c.tasks ==> TaskOk(c.log, p, c.tasks[p], p in c.futex))
    && (forall i, j :: 0 <= i < j < |c.order| ==> c.order[i] < c.order[j])
    && (forall p :: p !in c.tasks ==> !Pending(c.log, p) && p !in c.futex)
    && (forall p :: p >= c.nextPid ==> !Returned(c.log, p))
    && (forall i :: 0 <= i < |c.log| ==> WaitOk(c.tasks, c.log[i]))
  }

  /** What never changes back: tasks stay, exited tasks stay exited with the same status, reaped ones stay
      reaped, and the log only grows. */
  ghost predicate Since(c: Core, d: Core) {
    && c.log <= d.log
    && forall p :: p in c.tasks ==>
         && p in d.tasks && d.tasks[p].parent == c.tasks[p].parent
         && (c.tasks[p].state.Exited? ==> d.tasks[p].state.Exited? && d.tasks[p].exitCode == c.tasks[p].exitCode)
         && (c.tasks[p].reaped ==> d.tasks[p].reaped)
  }

  lemma SinceSelf(c: Core)
    ensures Since(c, c)
  {
  }

  lemma SinceTransitive(c: Core, d: Core, e: Core)
    requires Since(c, d) && Since(d, e)
    ensures Since(c, e)
  {
  }

  /** Task `p` becomes `t`, with the given events and with or without a futex record. */
  ghost function Put(c: Core, p: int, t: Task, es: Log, futex: bool): Core {
    c.(tasks := c.tasks[p := t], log := c.log + es, futex := if futex then c.futex + {p} else c.futex - {p})
  }

  /** The parts of a task that only particular events change. */
  ghost predicate SameTask(t: Task, u: Task) {
    && u.parent == t.parent && u.table == t.table && u.reaped == t.reaped
    && (t.state.Exited? ==> u.state.Exited? && u.exitCode == t.exitCode)
  }

  /** Exited tasks stay exited, with the same parent and code. */
  ghost predicate ExitedStay(tasks: map<int, Task>, after: map<int, Task>) {
    forall q :: q in tasks && tasks[q].state.Exited? ==>
      q in after && after[q].state.Exited? && after[q].parent == tasks[q].parent
        && after[q].exitCode == tasks[q].exitCode
  }

  lemma WaitsStay(log: Log, tasks: map<int, Task>, after: map<int, Task>)
    requires ExitedStay(tasks, after) && forall i :: 0 <= i < |log| ==> WaitOk(tasks, log[i])
    ensures forall i :: 0 <= i < |log| ==> WaitOk(after, log[i])
  {
  }

  lemma WaitsMore(log: Log, tasks: map<int, Task>, e: Event)
    requires WaitOk(tasks, e) && forall i :: 0 <= i < |log| ==> WaitOk(tasks, log[i])
    ensures forall i :: 0 <= i < |log + [e]| ==> WaitOk(tasks, (log + [e])[i])
  {
    hide WaitOk;
  }

  /** One task changes, with one event of its own (not the return of a child). */
  lemma PutKeeps(c: Core, p: int, t: Task, e: Event, futex: bool)
    requires CoreOk(c) && p in c.tasks && e.pid == p && Follows(c.log, e) && TaskOk(c.log + [e], p, t, futex)
    requires SameTask(c.tasks[p], t) && WaitOk(c.tasks, e) && (e.Waited? ==> e.result <= 0)
    ensures CoreOk(Put(c, p, t, [e], futex)) && Since(c, Put(c, p, t, [e], futex))
  {
    var x := Put(c, p, t, [e], futex);
    WaitsMore(c.log, c.tasks, e);
    WaitsStay(c.log + [e], c.tasks, x.tasks);
    hide WaitOk;
    LogGrows(c.log, e);
    forall q ensures Pending(x.log, q) <==> e == Blocks(q) || (Pending(c.log, q) && !(e.Completes? && e.pid == q)) {
      PendingGrows(c.log, e, q);
    }
    forall q ensures Returned(x.log, q) <==> Returned(c.log, q) || (e.Waited? && e.result == q) {
      ReturnedGrows(c.log, e, q);
    }
    forall q | q in x.tasks ensures TaskOk(x.log, q, x.tasks[q], q in x.futex) {
      if q != p { assert TaskOk(c.log, q, c.tasks[q], q in c.futex); }
    }
  }

  /** One task changes without an event. */
  lemma QuietKeeps(c: Core, p: int, t: Task)
    requires CoreOk(c) && p in c.tasks && TaskOk(c.log, p, t, p in c.futex) && SameTask(c.tasks[p], t)
    ensures CoreOk(Put(c, p, t, [], p in c.futex)) && Since(c, Put(c, p, t, [], p in c.futex))
  {
    var x := Put(c, p, t, [], p in c.futex);
    assert x.log == c.log && x.futex == c.futex;
    WaitsStay(c.log, c.tasks, x.tasks);
    hide WaitOk;
    forall q | q in x.tasks ensures TaskOk(x.log, q, x.tasks[q], q in x.futex) {
      if q != p { assert TaskOk(c.log, q, c.tasks[q], q in c.futex); }
    }
  }

  function Child(parent: int, table: int): Task {
    Task(Ready, parent, table, false, 0, None, None, 0)
  }

  /** A new task with a number not used before. */
  ghost function Born(c: Core, t: Task): Core {
    c.(tasks := c.tasks[c.nextPid := t], order := c.order + [c.nextPid], nextPid := c.nextPid + 1)
  }

  lemma BornKeeps(c: Core, parent: int, table: int)
    requires CoreOk(c) && 0 < table <= c.nextPid
    ensures CoreOk(Born(c, Child(parent, table))) && Since(c, Born(c, Child(parent, table)))
  {
    var x := Born(c, Child(parent, table));
    assert c.nextPid !in c.tasks;
    WaitsStay(c.log, c.tasks, x.tasks);
    hide WaitOk;
    forall i | 0 <= i < |c.order| ensures c.order[i] < c.nextPid { assert c.order[i] in c.order; }
    forall q | q in x.tasks ensures 0 < q < x.nextPid && 0 < x.tasks[q].table < x.nextPid
      && TaskOk(x.log, q, x.tasks[q], q in x.futex) {
      if q != c.nextPid { assert TaskOk(c.log, q, c.tasks[q], q in c.futex); }
    }
  }

  lemma NumberKeeps(c: Core)
    requires CoreOk(c)
    ensures CoreOk(c.(nextPid := c.nextPid + 1)) && Since(c, c.(nextPid := c.nextPid + 1))
  {
  }

  /** A wait4 of `p` returns the exited child `k`. */
  lemma ReapKeeps(c: Core, p: int, w: WaitCall, k: int)
    requires CoreOk(c) && k in c.tasks && c.tasks[k].state.Exited? && !c.tasks[k].reaped && c.tasks[k].parent == p
    requires w.requested > 0 ==> k == w.requested
    ensures var x := c.(tasks := c.tasks[k := c.tasks[k].(reaped := true)],
                        log := c.log + [Waited(p, w, k, StatusOf(c.tasks, w, k))]);
            CoreOk(x) && Since(c, x)
  {
    var e := Waited(p, w, k, StatusOf(c.tasks, w, k));
    var x := c.(tasks := c.tasks[k := c.tasks[k].(reaped := true)], log := c.log + [e]);
    assert TaskOk(c.log, k, c.tasks[k], k in c.futex);
    WaitsMore(c.log, c.tasks, e);
    WaitsStay(c.log + [e], c.tasks, x.tasks);
    hide WaitOk;
    LogGrows(c.log, e);
    forall q ensures Pending(x.log, q) <==> Pending(c.log, q) { PendingGrows(c.log, e, q); }
    forall q ensures Returned(x.log, q) <==> Returned(c.log, q) || q == k { ReturnedGrows(c.log, e, q); }
    forall q | q in x.tasks ensures TaskOk(x.log, q, x.tasks[q], q in x.futex) {
      if q != k { assert TaskOk(c.log, q, c.tasks[q], q in c.futex); }
    }
  }

  lemma Unblocked(c: Core, p: int)
    requires CoreOk(c) && p in c.tasks && !c.tasks[p].state.Blocked?
    ensures !AnyRecord(c.tasks[p], p in c.futex) && !Pending(c.log, p) && p !in c.futex
    ensures !c.tasks[p].state.Exited? ==> !c.tasks[p].reaped && !Returned(c.log, p)
    ensures 0 < p < c.nextPid && 0 < c.tasks[p].table < c.nextPid
  {
    assert TaskOk(c.log, p, c.tasks[p], p in c.futex);
  }

  lemma IsBlocked(c: Core, p: int)
    requires CoreOk(c) && p in c.tasks && c.tasks[p].state.Blocked?
    ensures AnyRecord(c.tasks[p], p in c.futex) && OneRecord(c.tasks[p], p in c.futex) && Pending(c.log, p)
    ensures !c.tasks[p].reaped && !Returned(c.log, p)
  {
    assert TaskOk(c.log, p, c.tasks[p], p in c.futex);
  }

  /** A running task executes an instruction that does not block. */
  lemma ExecuteKeeps(c: Core, p: int, t: Task)
    requires CoreOk(c) && p in c.tasks && c.tasks[p].state.Running?
    requires !t.state.Blocked? && !AnyRecord(t, false) && SameTask(c.tasks[p], t)
    ensures CoreOk(Put(c, p, t, [Executes(p)], false)) && Since(c, Put(c, p, t, [Executes(p)], false))
  {
    Unblocked(c, p);
    PendingGrows(c.log, Executes(p), p);
    ReturnedGrows(c.log, Executes(p), p);
    PutKeeps(c, p, t, Executes(p), false);
  }

  /** A running task executes a system call that blocks. */
  lemma BlockKeeps(c: Core, p: int, t: Task, futex: bool)
    requires CoreOk(c) && p in c.tasks && c.tasks[p].state.Running?
    requires t.state.Blocked? && AnyRecord(t, futex) && OneRecord(t, futex) && SameTask(c.tasks[p], t)
    ensures CoreOk(Put(c, p, t, [Executes(p)] + [Blocks(p)], futex))
            && Since(c, Put(c, p, t, [Executes(p)] + [Blocks(p)], futex))
  {
    hide CoreOk, Since, Pending, Returned;
    Unblocked(c, p);
    ExecuteKeeps(c, p, c.tasks[p]);
    var y := Put(c, p, c.tasks[p], [Executes(p)], false);
    Unblocked(y, p);
    PendingGrows(y.log, Blocks(p), p);
    ReturnedGrows(y.log, Blocks(p), p);
    PutKeeps(y, p, t, Blocks(p), futex);
    var x := Put(c, p, t, [Executes(p)] + [Blocks(p)], futex);
    assert Put(y, p, t, [Blocks(p)], futex) == x by {
      assert y.log + [Blocks(p)] == c.log + ([Executes(p)] + [Blocks(p)]);
      assert y.tasks[p := t] == c.tasks[p := t];
    }
    SinceTransitive(c, y, x);
  }

  /** A pending call completes. */
  lemma CompleteKeeps(c: Core, p: int, t: Task)
    requires CoreOk(c) && p in c.tasks && c.tasks[p].state.Blocked?
    requires t.state.Ready? && !AnyRecord(t, false) && SameTask(c.tasks[p], t)
    ensures CoreOk(Put(c, p, t, [Completes(p, t.result)], false))
            && Since(c, Put(c, p, t, [Completes(p, t.result)], false))
  {
    IsBlocked(c, p);
    PendingGrows(c.log, Completes(p, t.result), p);
    ReturnedGrows(c.log, Completes(p, t.result), p);
    PutKeeps(c, p, t, Completes(p, t.result), false);
  }

  // ---------------------------------------------------------------- wait4

  predicate Matches(t: Task, p: int, parent: int, requested: int) {
    !t.reaped && t.parent == parent && (requested <= 0 || requested == p)
  }

  /** The earliest-created child that the call may return. */
  function FirstMatch(tasks: map<int, Task>, order: seq<int>, parent: int, requested: int): (r: Option<int>)
    ensures r.Some? ==> r.value in tasks && r.value in order && Matches(tasks[r.value], r.value, parent, requested)
    ensures r.None? ==> forall p :: p in order && p in tasks ==> !Matches(tasks[p], p, parent, requested)
  {
    if order == [] then None
    else if order[0] in tasks && Matches(tasks[order[0]], order[0], parent, requested) then Some(order[0])
    else FirstMatch(tasks, order[1..], parent, requested)
  }

  /** What wait4 returns; `stored` says whether the status can be stored.  EAGAIN stands for a call that
      has blocked. */
  function WaitResult(tasks: map<int, Task>, order: seq<int>, parent: int, w: WaitCall, stored: bool): int {
    match FirstMatch(tasks, order, parent, w.requested)
    case None => -ECHILD
    case Some(c) =>
      if !tasks[c].state.Exited? then (if w.nohang then 0 else -EAGAIN)
      else if w.status && !stored then -EFAULT
      else c
  }

  /** The status word that is stored when wait4 returns `r`. */
  function StatusOf(tasks: map<int, Task>, w: WaitCall, r: int): Option<int> {
    if r > 0 && r in tasks && w.status then Some(tasks[r].exitCode % 0x100 * 0x100) else None
  }

  function WaitTasks(tasks: map<int, Task>, order: seq<int>, parent: int, w: WaitCall, stored: bool): map<int, Task>
    requires parent in tasks
  {
    var r := WaitResult(tasks, order, parent, w, stored);
    if r == -EAGAIN then tasks[parent := tasks[parent].(waiting := Some(w))]
    else if r > 0 && r in tasks then tasks[r := tasks[r].(reaped := true)]
    else tasks
  }

  lemma {:induction false} FirstMatchAt(tasks: map<int, Task>, order: seq<int>, parent: int, requested: int, i: nat)
    requires i <= |order|
    requires forall j :: 0 <= j < i && order[j] in tasks ==> !Matches(tasks[order[j]], order[j], parent, requested)
    ensures FirstMatch(tasks, order, parent, requested) == FirstMatch(tasks, order[i..], parent, requested)
  {
    if i == 0 { assert order[0..] == order; } else {
      FirstMatchAt(tasks, order[1..], parent, requested, i - 1);
      assert order[1..][i - 1..] == order[i..];
    }
  }

  /** The task created as number `i` is the first one that has not been reaped, is a child of the caller and,
      if a positive number was asked for, has that number. */
  ghost predicate FirstChild(tasks: map<int, Task>, order: seq<int>, parent: int, requested: int, i: nat) {
    && i < |order| && order[i] in tasks && !tasks[order[i]].reaped && tasks[order[i]].parent == parent
    && (requested > 0 ==> order[i] == requested)
    && forall j :: 0 <= j < i && order[j] in tasks && !tasks[order[j]].reaped && tasks[order[j]].parent == parent ==>
         requested > 0 && order[j] != requested
  }

  /** What wait4 returns: for the first such child its number once it has exited, or EFAULT when its status is
      asked for and cannot be stored; while it lives, 0 with WNOHANG, else the call blocks.  ECHILD means
      that the caller has no such child. */
  ghost predicate WaitGives(tasks: map<int, Task>, order: seq<int>, parent: int, w: WaitCall, stored: bool, r: int) {
    && (forall i: nat :: FirstChild(tasks, order, parent, w.requested, i) ==>
          r == if tasks[order[i]].state.Exited? then (if w.status && !stored then -EFAULT else order[i])
               else if w.nohang then 0 else -EAGAIN)
    && (r == -ECHILD <==>
        forall p :: p in order && p in tasks && !tasks[p].reaped && tasks[p].parent == parent ==>
          w.requested > 0 && p != w.requested)
    && (r == 0 <==> w.nohang && exists i: nat :: FirstChild(tasks, order, parent, w.requested, i)
                                               && !tasks[order[i]].state.Exited?)
    && (r > 0 ==> exists i: nat :: FirstChild(tasks, order, parent, w.requested, i) && order[i] == r
                                 && tasks[r].state.Exited?)
  }

  lemma {:induction false} FirstIs(tasks: map<int, Task>, order: seq<int>, parent: int, requested: int)
    returns (i: nat)
    ensures FirstMatch(tasks, order, parent, requested).Some? ==>
              && FirstChild(tasks, order, parent, requested, i)
              && FirstMatch(tasks, order, parent, requested) == Some(order[i])
              && forall k: nat :: FirstChild(tasks, order, parent, requested, k) ==> k == i
    ensures FirstMatch(tasks, order, parent, requested).None? ==>
              forall k: nat :: !FirstChild(tasks, order, parent, requested, k)
  {
    i := 0;
    while i < |order| && !(order[i] in tasks && Matches(tasks[order[i]], order[i], parent, requested))
      invariant i <= |order|
      invariant forall j :: 0 <= j < i && order[j] in tasks ==> !Matches(tasks[order[j]], order[j], parent, requested)
    {
      i := i + 1;
    }
    FirstMatchAt(tasks, order, parent, requested, i);
    if i < |order| {
      assert FirstChild(tasks, order, parent, requested, i);
    } else {
      assert order[i..] == [];
    }
  }

  lemma WaitMeans(tasks: map<int, Task>, order: seq<int>, parent: int, w: WaitCall, stored: bool)
    requires forall p :: p in order ==> p > 0
    ensures WaitGives(tasks, order, parent, w, stored, WaitResult(tasks, order, parent, w, stored))
  {
    var i := FirstIs(tasks, order, parent, w.requested);
    hide FirstChild;
    if FirstMatch(tasks, order, parent, w.requested).Some? {
      assert FirstChild(tasks, order, parent, w.requested, i);
    }
  }

  /** The caller's own records do not affect what wait4 finds. */
  lemma {:induction false} MatchIgnores(tasks: map<int, Task>, order: seq<int>, p: int, t: Task, requested: int)
    requires p in tasks && t.reaped == tasks[p].reaped && t.parent == tasks[p].parent
    ensures FirstMatch(tasks[p := t], order, p, requested) == FirstMatch(tasks, order, p, requested)
  {
    if order != [] { MatchIgnores(tasks, order[1..], p, t, requested); }
  }

  lemma WaitIgnores(tasks: map<int, Task>, order: seq<int>, p: int, t: Task, w: WaitCall, stored: bool)
    requires p in tasks && t.reaped == tasks[p].reaped && t.parent == tasks[p].parent
             && t.state.Exited? == tasks[p].state.Exited? && t.exitCode == tasks[p].exitCode
    ensures WaitResult(tasks[p := t], order, p, w, stored) == WaitResult(tasks, order, p, w, stored)
    ensures forall r :: StatusOf(tasks[p := t], w, r) == StatusOf(tasks, w, r)
  {
    MatchIgnores(tasks, order, p, t, w.requested);
  }

  /** A call of wait4 that returns: the child it returns, if any, is reaped. */
  lemma ReturnKeeps(c: Core, p: int, w: WaitCall, stored: bool, r: int)
    requires CoreOk(c) && p in c.tasks && r == WaitResult(c.tasks, c.order, p, w, stored) && r != -EAGAIN
    ensures r > 0 ==> r in c.tasks && c.tasks[r].state.Exited?
    ensures var x := c.(tasks := WaitTasks(c.tasks, c.order, p, w, stored),
                        log := c.log + [Waited(p, w, r, StatusOf(c.tasks, w, r))]);
            CoreOk(x) && Since(c, x)
  {
    Numbers(c);
    hide CoreOk, Since;
    if r > 0 { ReapKeeps(c, p, w, r); } else { NoChild(c, p, Waited(p, w, r, StatusOf(c.tasks, w, r))); }
  }

  lemma Numbers(c: Core)
    requires CoreOk(c)
    ensures forall p :: p in c.tasks || p in c.order ==> 0 < p
  {
  }

  /** A wait4 returns without a child. */
  lemma NoChild(c: Core, p: int, e: Event)
    requires CoreOk(c) && p in c.tasks && e.Waited? && e.pid == p && e.result <= 0 && WaitOk(c.tasks, e)
    ensures CoreOk(c.(log := c.log + [e])) && Since(c, c.(log := c.log + [e]))
  {
    assert TaskOk(c.log, p, c.tasks[p], p in c.futex);
    NoZero(c, e.result);
    hide CoreOk, Since;
    PendingGrows(c.log, e, p);
    ReturnedGrows(c.log, e, p);
    PutKeeps(c, p, c.tasks[p], e, p in c.futex);
    assert c.tasks[p := c.tasks[p]] == c.tasks;
    assert Put(c, p, c.tasks[p], [e], p in c.futex) == c.(log := c.log + [e]);
  }

  lemma NoZero(c: Core, r: int)
    requires CoreOk(c) && r <= 0
    ensures r !in c.tasks
  {
  }
}
