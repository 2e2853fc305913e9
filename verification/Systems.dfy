/** The whole system under the scheduler as a value: tasks, descriptors and pipes, and futexes.  What one
    step of a task does to it, when a task is stuck, and what holds over every run. */
module Systems {
  import opened Words
  import opened Errno
  import opened Pipes
  import opened Tasks
  import W = PipeWorlds
  import F = Futexes

  const READ_LIMIT: nat := 0x10_0000

  datatype Sys = Sys(core: Core, files: W.World, futex: F.Snapshot)

  ghost predicate Inv(s: Sys) {
    && CoreOk(s.core) && W.Inv(s.files) && F.Inv(s.futex) && s.core.futex == s.futex.blocked.Keys
    && forall k :: k in s.files.fds ==> 0 < k.0 < s.core.nextPid
  }

  // ---------------------------------------------------------------- reads and writes of pipes

  /** A read or write that does not block: its result, and the files after it. */
  datatype Tried = Tried(result: int, files: W.World)

  function Capped(count: nat): nat { if count > READ_LIMIT then READ_LIMIT else count }

  /** Tries a read or write of a descriptor once; `stored` says whether bytes read can be stored in guest
      memory, which is found out after they have left the pipe. */
  ghost function Attempt(w: W.World, k: W.Key, c: PipeCall, stored: bool): Option<Tried> {
    if !W.Piped(w, k) then Some(Tried(-EBADF, w))
    else
      var h := w.fds[k].end;
      var p := w.pipes[h.pipe];
      if c.write then
        var put := WriteOf(p, h.write, c.data);
        if put.WriteBlocks? then None
        else Some(Tried(if put.Wrote? then put.n else if put.BrokenPipe? then -EPIPE else -EFAULT,
                        w.(pipes := w.pipes[h.pipe := AfterWrite(p, c.data, put)])))
      else
        var got := ReadOf(p, h.write, Capped(c.count));
        if got.ReadBlocks? then None
        else Some(Tried(if got.NotReadable? || !stored then -EFAULT else if got.Bytes? then |got.bytes| else 0,
                        w.(pipes := w.pipes[h.pipe := AfterRead(p, got)])))
  }

  /** A read of an empty pipe that has a writer, or a write to a full pipe that has a reader. */
  ghost predicate StuckPipe(w: W.World, k: W.Key, c: PipeCall) {
    && W.Piped(w, k)
    && var h := w.fds[k].end;
    && var p := w.pipes[h.pipe];
    && c.write == h.write
    && if c.write then c.data != [] && p.readers != 0 && |p.data| == CAPACITY
       else c.count > 0 && p.data == [] && p.writers != 0
  }

  lemma AttemptBlocksIff(w: W.World, k: W.Key, c: PipeCall, stored: bool)
    requires W.Inv(w)
    ensures Attempt(w, k, c, stored).None? <==> StuckPipe(w, k, c)
  {
    if W.Piped(w, k) {
      var h := w.fds[k].end;
      W.SlotOpen(w, k);
      W.PipeOk(w, h);
      hide W.Inv;
      ReadInOrder(w.pipes[h.pipe], h.write, Capped(c.count));
      WriteInOrder(w.pipes[h.pipe], h.write, c.data);
    }
  }

  /** What a read or write of a descriptor returns that does not block: a read as many bytes as it asks for
      or as there are, whichever is less, and 0 only at the end of the file; a write as many as there are or
      as there is room for. */
  lemma AttemptReturns(w: W.World, k: W.Key, c: PipeCall, stored: bool)
    requires W.Inv(w) && Attempt(w, k, c, stored).Some?
    ensures var o := Attempt(w, k, c, stored).value;
            if !W.Piped(w, k) then o == Tried(-EBADF, w)
            else
              var h := w.fds[k].end;
              var p, q := w.pipes[h.pipe], o.files.pipes[h.pipe];
              && o.files == w.(pipes := w.pipes[h.pipe := q]) && q.readers == p.readers && q.writers == p.writers
              && if c.write != h.write then o.result == -EFAULT && q.data == p.data
                 else if c.write then
                   if c.data != [] && p.readers == 0 then o.result == -EPIPE && q.data == p.data
                   else
                     && o.result == Least(|c.data|, CAPACITY - |p.data|)
                     && q.data == p.data + c.data[..o.result]
                 else
                   && var n := Least(c.count, |p.data|);
                   && o.result == (if stored then n else -EFAULT) && q.data == p.data[n..]
                   && (n == 0 ==> c.count == 0 || p.writers == 0)
  {
    if W.Piped(w, k) {
      var h := w.fds[k].end;
      W.SlotOpen(w, k);
      W.PipeOk(w, h);
      hide W.Inv;
      var p, o := w.pipes[h.pipe], Attempt(w, k, c, stored).value;
      ReadInOrder(p, h.write, Capped(c.count));
      WriteInOrder(p, h.write, c.data);
    }
  }

  function Least(m: nat, n: nat): nat { if m < n then m else n }

  lemma AttemptKeeps(w: W.World, k: W.Key, c: PipeCall, stored: bool)
    requires W.Inv(w) && Attempt(w, k, c, stored).Some?
    ensures var x := Attempt(w, k, c, stored).value.files;
            W.Inv(x) && x.fds == w.fds
  {
    if W.Piped(w, k) {
      var h := w.fds[k].end;
      var p, x := w.pipes[h.pipe], Attempt(w, k, c, stored).value.files;
      hide W.Inv;
      if c.write {
        var put := WriteOf(p, h.write, c.data);
        W.StepWrites(w, k, c.data, put, x);
        W.StepKeeps(w, W.Writes(k, c.data, put), x);
      } else {
        var got := ReadOf(p, h.write, Capped(c.count));
        W.StepReads(w, k, Capped(c.count), got, x);
        W.StepKeeps(w, W.Reads(k, Capped(c.count), got), x);
      }
    }
  }

  /** The same as a read of the descriptor tables. */
  lemma AttemptReads(w: W.World, k: W.Key, c: PipeCall, stored: bool, got: ReadResult, x: W.World)
    requires W.Step(w, W.Reads(k, Capped(c.count), got), x) && !c.write
    ensures got.ReadBlocks? ==> x == w && Attempt(w, k, c, stored).None?
    ensures !got.ReadBlocks? ==>
              Attempt(w, k, c, stored)
                == Some(Tried(if got.NotReadable? || !stored then -EFAULT else if got.Bytes? then |got.bytes|
                              else 0, x))
  {
    if got.ReadBlocks? { assert x.pipes == w.pipes; }
  }

  lemma AttemptWrites(w: W.World, k: W.Key, c: PipeCall, stored: bool, put: WriteResult, x: W.World)
    requires W.Step(w, W.Writes(k, c.data, put), x) && c.write
    ensures put.WriteBlocks? ==> x == w && Attempt(w, k, c, stored).None?
    ensures !put.WriteBlocks? ==>
              Attempt(w, k, c, stored)
                == Some(Tried(if put.Wrote? then put.n else if put.BrokenPipe? then -EPIPE else -EFAULT, x))
  {
    if put.WriteBlocks? { assert x.pipes == w.pipes; }
  }

  // ---------------------------------------------------------------- one instruction

  /** What the instruction a task executes asks of the rest of the system.  Calls that loop over a
      descriptor table carry the order they visit it in and the states in between. */
  datatype Act =
    | Plain(value: int)
    | FileCall(op: W.Op, after: W.World, value: int)
    | TryPipe(call: PipeCall, stored: bool)
    | FutexCall(event: F.Event, value: int)
    | WaitChild(wait: WaitCall, stored: bool)
    | ForkCall(order: seq<W.Key>, mids: seq<W.World>)
    | CloneCall(stored: bool, order: seq<W.Key>, mids: seq<W.World>)
    | ExitCall(code: int, order: seq<W.Key>, mids: seq<W.World>)
    | CpuFault
    | Halt

  /** A call on descriptors that changes only one table, and moves no byte. */
  ghost predicate Local(op: W.Op, table: int) {
    match op
    case Makes(r, w) => r.0 == table && w.0 == table
    case Undoes(r, w, _, _) => r.0 == table && w.0 == table
    case Dups(from, _, dst, _) => from.0 == table && dst.0 == table
    case Opens(k) => k.0 == table
    case Closes(k) => k.0 == table
    case Sheds(keys, _, _) => forall k :: k in keys ==> k.0 == table
    case Stays => true
    case _ => false
  }

  ghost predicate Loops(s: Sys, order: seq<W.Key>, mids: seq<W.World>, op: W.Op) {
    |mids| == |order| + 1 && W.Step(s.files, op, mids[|order|])
  }

  /** The call is one the task can make: its effects on the shared tables are those of a system call of
      its own process. */
  ghost predicate Enabled(s: Sys, p: int, act: Act)
    requires p in s.core.tasks
  {
    var table := s.core.tasks[p].table;
    match act
    case FileCall(op, after, _) => W.Step(s.files, op, after) && Local(op, table)
    case TryPipe(call, _) => W.Piped(s.files, (table, call.fd))
    case FutexCall(e, v) =>
      && !e.Resuming? && (e.Waiting? ==> e.pid == p)
      && (e.Waking? ==> v == F.WakeCount(s.futex, e.at, e.count)) && (e.Refusing? ==> v == -EAGAIN)
    case ForkCall(order, mids) => Loops(s, order, mids, W.Forks(table, s.core.nextPid, order, mids))
    case CloneCall(_, order, mids) => Loops(s, order, mids, W.Forks(table, s.core.nextPid, order, mids))
    case ExitCall(_, order, mids) =>
      table == p ==> Loops(s, order, mids, W.Sheds(W.Owned(s.files.fds.Keys, p), order, mids))
    case _ => true
  }

  ghost function FutexAfter(f: F.Snapshot, e: F.Event): F.Snapshot {
    match e
    case Waiting(pid, uaddr, deadline) => F.Waited(f, pid, uaddr, deadline)
    case Waking(a, value) => F.Woken(f, a, value)
    case Refusing => f.(next := f.next + 1)
    case _ => f
  }

  ghost function Last(order: seq<W.Key>, mids: seq<W.World>, files: W.World): W.World {
    if |order| < |mids| then mids[|order|] else files
  }

  /** The call itself: the records it sets, the value it returns and its effect on the shared tables.
      Cloning a thread first copies the descriptors as fork does, into a table numbered as the thread,
      and then drops that table: the thread uses its parent's. */
  ghost function Called(s: Sys, p: int, act: Act): (r: Sys)
    requires p in s.core.tasks
    ensures p in r.core.tasks
  {
    var c, t, ran := s.core, s.core.tasks[p], [Executes(p)];
    match act
    case Plain(v) => s.(core := Put(c, p, t.(result := v), ran, false))
    case FileCall(_, after, v) => s.(core := Put(c, p, t.(result := v), ran, false), files := after)
    case TryPipe(call, stored) =>
      var o := Attempt(s.files, (t.table, call.fd), call, stored);
      if o.None? then s.(core := Put(c, p, t.(pipe := Some(call)), ran, false))
      else s.(core := Put(c, p, t.(result := o.value.result), ran, false), files := o.value.files)
    case FutexCall(e, v) =>
      s.(core := Put(c, p, if e.Waiting? then t else t.(result := v), ran, e.Waiting?), futex := FutexAfter(s.futex, e))
    case WaitChild(w, stored) =>
      var r, after := WaitResult(c.tasks, c.order, p, w, stored), WaitTasks(c.tasks, c.order, p, w, stored);
      s.(core := c.(tasks := after[p := after[p].(result := r)],
                    log := c.log + ran + if r == -EAGAIN then [] else [Waited(p, w, r, StatusOf(c.tasks, w, r))]))
    case ForkCall(order, mids) =>
      s.(core := Born(Put(c, p, t.(result := c.nextPid), ran, false), Child(p, c.nextPid)),
         files := Last(order, mids, s.files))
    case CloneCall(stored, order, mids) =>
      var x := Put(c, p, t.(result := if stored then c.nextPid else -EFAULT), ran, false);
      s.(core := if stored then Born(x, Child(p, t.table))
         else x.(nextPid := c.nextPid + 1), files := Last(order, mids, s.files))
    case ExitCall(_, _, _) => s.(core := Put(c, p, t.(result := 0), ran, false))
    case _ => s.(core := Put(c, p, t, ran, false))
  }

  /** What the step of the process makes of it afterwards: a block record set blocks the task; else an exit
      closes the descriptors, unless the task is a thread, and a fault stops the task. */
  ghost function Settled(s: Sys, p: int, act: Act): (r: Sys)
    requires p in s.core.tasks
    ensures p in r.core.tasks
  {
    var c, t := s.core, s.core.tasks[p];
    if AnyRecord(t, p in c.futex) then s.(core := Put(c, p, t.(state := Blocked), [Blocks(p)], p in c.futex))
    else if act.ExitCall? then
      s.(core := Put(c, p, t.(state := Exited, exitCode := act.code), [], false),
         files := if t.table == p then Last(act.order, act.mids, s.files) else s.files)
    else if act.CpuFault? || act.Halt? then s.(core := Put(c, p, t.(state := Faulted), [], false))
    else s
  }

  ghost function Executed(s: Sys, p: int, act: Act): (r: Sys)
    requires p in s.core.tasks
    ensures p in r.core.tasks
  {
    Settled(Called(s, p, act), p, act)
  }

  // ---------------------------------------------------------------- one instruction keeps the invariant

  lemma PutTwice(c: Core, p: int, t: Task, u: Task, es: Log, fs: Log, futex: bool)
    ensures Put(Put(c, p, t, es, futex), p, u, fs, futex) == Put(c, p, u, es + fs, futex)
  {
    assert c.log + es + fs == c.log + (es + fs);
    assert c.tasks[p := t][p := u] == c.tasks[p := u];
    assert (c.futex + {p}) + {p} == c.futex + {p};
    assert (c.futex - {p}) - {p} == c.futex - {p};
  }

  /** The keys of a table other than these are as they were. */
  ghost predicate Elsewhere(w: W.World, x: W.World, table: int) {
    && (forall k :: k in w.fds && k.0 != table ==> k in x.fds && x.fds[k] == w.fds[k])
    && (forall k :: k in x.fds && k.0 != table ==> k in w.fds)
  }

  lemma {:induction false} ShedElsewhere(order: seq<W.Key>, mids: seq<W.World>, i: nat, table: int)
    requires W.ShedAll(order, mids) && i <= |order| && forall k :: k in order ==> k.0 == table
    ensures Elsewhere(mids[0], mids[i], table)
  {
    if i > 0 {
      ShedElsewhere(order, mids, i - 1, table);
      assert W.Emptied(mids[i - 1], order[i - 1], mids[i - 1 + 1]);
      assert order[i - 1] in order;
    }
  }

  lemma {:induction false} CopyElsewhere(order: seq<W.Key>, child: int, mids: seq<W.World>, i: nat)
    requires W.CopyAll(order, child, mids) && i <= |order|
    ensures Elsewhere(mids[0], mids[i], child)
  {
    if i > 0 {
      CopyElsewhere(order, child, mids, i - 1);
      assert W.CopyOne(order[i - 1], child, mids[i - 1], mids[i - 1 + 1]);
    }
  }

  lemma LocalElsewhere(w: W.World, op: W.Op, x: W.World, table: int)
    requires W.Step(w, op, x) && Local(op, table)
    ensures Elsewhere(w, x, table)
  {
    if op.Sheds? {
      assert forall k :: k in op.order ==> k in W.Members(op.order);
      ShedElsewhere(op.order, op.mids, |op.order|, table);
    }
  }

  lemma ForkElsewhere(w: W.World, op: W.Op, x: W.World)
    requires W.Step(w, op, x) && op.Forks?
    ensures Elsewhere(w, x, op.child)
  {
    CopyElsewhere(op.order, op.child, op.mids, |op.order|);
  }

  /** Slots belong to processes made so far. */
  ghost predicate Numbered(w: W.World, nextPid: int) {
    forall k :: k in w.fds ==> 0 < k.0 < nextPid
  }

  lemma Parts(s: Sys, p: int)
    requires Inv(s) && p in s.core.tasks
    ensures CoreOk(s.core) && W.Inv(s.files) && F.Inv(s.futex) && s.core.futex == s.futex.blocked.Keys
    ensures Numbered(s.files, s.core.nextPid) && 0 < p < s.core.nextPid && 0 < s.core.tasks[p].table < s.core.nextPid
  {
  }

  lemma Whole(s: Sys)
    requires CoreOk(s.core) && W.Inv(s.files) && F.Inv(s.futex) && s.core.futex == s.futex.blocked.Keys
    requires Numbered(s.files, s.core.nextPid)
    ensures Inv(s)
  {
  }

  lemma StillNumbered(w: W.World, x: W.World, table: int, nextPid: int, after: int)
    requires Numbered(w, nextPid) && Elsewhere(w, x, table) && 0 < table < after && nextPid <= after
    ensures Numbered(x, after)
  {
  }

  /** A task that is not waiting on a futex changes. */
  lemma NoFutex(s: Sys, p: int, t: Task, es: Log)
    requires p !in s.futex.blocked && s.core.futex == s.futex.blocked.Keys
    ensures Put(s.core, p, t, es, false).futex == s.futex.blocked.Keys
  {
  }

  /** A call that does not block, with its effect on the files. */
  lemma ReturnsKeeps(s: Sys, p: int, t: Task, files: W.World)
    requires Inv(s) && p in s.core.tasks && s.core.tasks[p].state.Running?
    requires !t.state.Blocked? && !AnyRecord(t, false) && SameTask(s.core.tasks[p], t)
    requires W.Inv(files) && Numbered(files, s.core.nextPid)
    ensures var x := s.(core := Put(s.core, p, t, [Executes(p)], false), files := files);
            Inv(x) && Since(s.core, x.core)
  {
    hide Inv, CoreOk, Since, W.Inv, F.Inv, Numbered;
    Parts(s, p);
    Unblocked(s.core, p);
    ExecuteKeeps(s.core, p, t);
    NoFutex(s, p, t, [Executes(p)]);
    Whole(s.(core := Put(s.core, p, t, [Executes(p)], false), files := files));
  }

  /** A call that blocks. */
  lemma BlocksKeeps(s: Sys, p: int, t: Task, futex: F.Snapshot)
    requires Inv(s) && p in s.core.tasks && s.core.tasks[p].state.Running? && F.Inv(futex)
    requires futex.blocked.Keys == s.futex.blocked.Keys + if p in futex.blocked then {p} else {}
    requires t.state.Blocked? && AnyRecord(t, p in futex.blocked) && OneRecord(t, p in futex.blocked)
             && SameTask(s.core.tasks[p], t)
    ensures var x := s.(core := Put(s.core, p, t, [Executes(p)] + [Blocks(p)], p in futex.blocked), futex := futex);
            Inv(x) && Since(s.core, x.core)
  {
    hide Inv, CoreOk, Since, W.Inv, F.Inv, Numbered;
    Parts(s, p);
    Unblocked(s.core, p);
    BlockKeeps(s.core, p, t, p in futex.blocked);
    if p !in futex.blocked { NoFutex(s, p, t, [Executes(p)] + [Blocks(p)]); }
    Whole(s.(core := Put(s.core, p, t, [Executes(p)] + [Blocks(p)], p in futex.blocked), futex := futex));
  }

  lemma TryPipeKeeps(s: Sys, p: int, act: Act)
    requires Inv(s) && p in s.core.tasks && s.core.tasks[p].state.Running? && act.TryPipe? && Enabled(s, p, act)
    ensures Inv(Executed(s, p, act)) && Since(s.core, Executed(s, p, act).core)
  {
    hide Inv, CoreOk, Since, W.Inv, F.Inv, Attempt;
    Parts(s, p);
    Unblocked(s.core, p);
    var t := s.core.tasks[p];
    var k := (t.table, act.call.fd);
    var o := Attempt(s.files, k, act.call, act.stored);
    if o.None? {
      var u := t.(pipe := Some(act.call));
      PutTwice(s.core, p, u, u.(state := Blocked), [Executes(p)], [Blocks(p)], false);
      BlocksKeeps(s, p, u.(state := Blocked), s.futex);
    } else {
      AttemptKeeps(s.files, k, act.call, act.stored);
      ReturnsKeeps(s, p, t.(result := o.value.result), o.value.files);
    }
  }

  lemma FutexCallKeeps(s: Sys, p: int, act: Act)
    requires Inv(s) && p in s.core.tasks && s.core.tasks[p].state.Running? && act.FutexCall? && Enabled(s, p, act)
    ensures Inv(Executed(s, p, act)) && Since(s.core, Executed(s, p, act).core)
  {
    hide Inv, CoreOk, Since, W.Inv, F.Inv, F.QueueAt, F.WithQueue;
    Parts(s, p);
    Unblocked(s.core, p);
    var t, e, f := s.core.tasks[p], act.event, FutexAfter(s.futex, act.event);
    F.StepKeeps(s.futex, e, f);
    if e.Waiting? {
      PutTwice(s.core, p, t, t.(state := Blocked), [Executes(p)], [Blocks(p)], true);
      BlocksKeeps(s, p, t.(state := Blocked), f);
    } else {
      ReturnsKeeps(s, p, t.(result := act.value), s.files);
      var x := s.(core := Put(s.core, p, t.(result := act.value), [Executes(p)], false));
      Refit(x, f);
    }
  }

  lemma Refit(s: Sys, f: F.Snapshot)
    requires Inv(s) && F.Inv(f) && f.blocked == s.futex.blocked
    ensures Inv(s.(futex := f))
  {
  }

  /** A wait4 that returns at once. */
  lemma WaitReturns(c: Core, p: int, w: WaitCall, stored: bool)
    requires CoreOk(c) && p in c.tasks && c.tasks[p].state.Running?
    requires WaitResult(c.tasks, c.order, p, w, stored) != -EAGAIN
    ensures var r := WaitResult(c.tasks, c.order, p, w, stored);
            var after := WaitTasks(c.tasks, c.order, p, w, stored);
            && p in after && after[p].state.Running? && !AnyRecord(after[p], p in c.futex)
            && var x := c.(tasks := after[p := after[p].(result := r)],
                           log := c.log + [Executes(p)] + [Waited(p, w, r, StatusOf(c.tasks, w, r))]);
               CoreOk(x) && Since(c, x)
  {
    hide CoreOk, Since, FirstMatch;
    var r := WaitResult(c.tasks, c.order, p, w, stored);
    Unblocked(c, p);
    var t := c.tasks[p].(result := r);
    var y := Put(c, p, t, [Executes(p)], false);
    ExecuteKeeps(c, p, t);
    WaitIgnores(c.tasks, c.order, p, t, w, stored);
    ReturnKeeps(y, p, w, stored, r);
    var x := y.(tasks := WaitTasks(y.tasks, y.order, p, w, stored),
                log := y.log + [Waited(p, w, r, StatusOf(y.tasks, w, r))]);
    SinceTransitive(c, y, x);
    var after := WaitTasks(c.tasks, c.order, p, w, stored);
    assert after[p := after[p].(result := r)] == x.tasks;
    assert y.futex == c.futex;
  }

  /** A wait4 that blocks. */
  lemma WaitBlocks(s: Sys, p: int, w: WaitCall, stored: bool)
    requires p in s.core.tasks && p !in s.core.futex && WaitResult(s.core.tasks, s.core.order, p, w, stored) == -EAGAIN
    ensures var u := s.core.tasks[p].(waiting := Some(w), result := -EAGAIN);
            Called(s, p, WaitChild(w, stored)) == s.(core := Put(s.core, p, u, [Executes(p)], false))
  {
    hide WaitResult;
    var c, t := s.core, s.core.tasks[p];
    var u := t.(waiting := Some(w), result := -EAGAIN);
    assert c.tasks[p := t.(waiting := Some(w))][p := u] == c.tasks[p := u];
    assert c.log + [Executes(p)] + [] == c.log + [Executes(p)];
    assert c.futex - {p} == c.futex;
  }

  lemma WaitChildKeeps(s: Sys, p: int, act: Act)
    requires Inv(s) && p in s.core.tasks && s.core.tasks[p].state.Running? && act.WaitChild?
    ensures Inv(Executed(s, p, act)) && Since(s.core, Executed(s, p, act).core)
  {
    hide Inv, CoreOk, Since, W.Inv, F.Inv, WaitResult;
    Parts(s, p);
    Unblocked(s.core, p);
    var c, t, w := s.core, s.core.tasks[p], act.wait;
    if WaitResult(c.tasks, c.order, p, w, act.stored) == -EAGAIN {
      WaitBlocks(s, p, w, act.stored);
      var u := t.(waiting := Some(w), result := -EAGAIN);
      PutTwice(c, p, u, u.(state := Blocked), [Executes(p)], [Blocks(p)], false);
      hide Called;
      BlocksKeeps(s, p, u.(state := Blocked), s.futex);
    } else {
      WaitReturns(c, p, w, act.stored);
      Whole(Called(s, p, act));
    }
  }

  lemma Unsettled(s: Sys, p: int, act: Act)
    requires p in s.core.tasks && !act.ExitCall? && !act.CpuFault? && !act.Halt?
    requires var x := Called(s, p, act).core; !AnyRecord(x.tasks[p], p in x.futex)
    ensures Executed(s, p, act) == Called(s, p, act)
  {
  }

  lemma SpawnCore(c: Core, p: int, u: Task, stored: bool, table: int)
    requires CoreOk(c) && p in c.tasks && c.tasks[p].state.Running? && 0 < table <= c.nextPid
    requires u == c.tasks[p].(result := u.result)
    ensures var x := Put(c, p, u, [Executes(p)], false);
            var y := if stored then Born(x, Child(p, table)) else x.(nextPid := c.nextPid + 1);
            && CoreOk(y) && Since(c, y) && y.nextPid == c.nextPid + 1 && y.futex == c.futex
            && p in y.tasks && y.tasks[p] == u && !AnyRecord(u, p in y.futex)
  {
    hide CoreOk, Since;
    Unblocked(c, p);
    var x := Put(c, p, u, [Executes(p)], false);
    ExecuteKeeps(c, p, u);
    if stored { BornKeeps(x, p, table); } else { NumberKeeps(x); }
    SinceTransitive(c, x, if stored then Born(x, Child(p, table)) else x.(nextPid := c.nextPid + 1));
    assert x.futex == c.futex;
  }

  /** fork, and clone of a thread. */
  lemma SpawnKeeps(s: Sys, p: int, act: Act)
    requires Inv(s) && p in s.core.tasks && s.core.tasks[p].state.Running? && (act.ForkCall? || act.CloneCall?)
             && Enabled(s, p, act)
    ensures Executed(s, p, act) == Called(s, p, act)
    ensures Inv(Executed(s, p, act)) && Since(s.core, Executed(s, p, act).core)
  {
    hide Inv, CoreOk, Since, W.Inv, F.Inv, W.Step, Numbered, Put, Born, Child, Executed, AnyRecord;
    Parts(s, p);
    var c, t := s.core, s.core.tasks[p];
    var op, files := W.Forks(t.table, c.nextPid, act.order, act.mids), act.mids[|act.order|];
    ForkElsewhere(s.files, op, files);
    W.StepKeeps(s.files, op, files);
    StillNumbered(s.files, files, c.nextPid, c.nextPid, c.nextPid + 1);
    var stored := act.ForkCall? || act.stored;
    SpawnCore(c, p, t.(result := if stored then c.nextPid else -EFAULT), stored, if act.ForkCall? then c.nextPid
              else t.table);
    Unsettled(s, p, act);
    Whole(Called(s, p, act));
  }

  lemma ExitKeeps(s: Sys, p: int, act: Act)
    requires Inv(s) && p in s.core.tasks && s.core.tasks[p].state.Running? && act.ExitCall? && Enabled(s, p, act)
    ensures Inv(Executed(s, p, act)) && Since(s.core, Executed(s, p, act).core)
  {
    hide Inv, CoreOk, Since, W.Inv, F.Inv, W.Step, Numbered;
    Parts(s, p);
    Unblocked(s.core, p);
    var c, t := s.core, s.core.tasks[p];
    var u := t.(result := 0);
    PutTwice(c, p, u, u.(state := Exited, exitCode := act.code), [Executes(p)], [], false);
    assert [Executes(p)] + [] == [Executes(p)];
    var files := s.files;
    if t.table == p {
      files := act.mids[|act.order|];
      var op := W.Sheds(W.Owned(s.files.fds.Keys, p), act.order, act.mids);
      LocalElsewhere(s.files, op, files, p);
      W.StepKeeps(s.files, op, files);
      StillNumbered(s.files, files, p, c.nextPid, c.nextPid);
    }
    ReturnsKeeps(s, p, u.(state := Exited, exitCode := act.code), files);
  }

  /** Every instruction keeps the invariant. */
  lemma ExecutedKeeps(s: Sys, p: int, act: Act)
    requires Inv(s) && p in s.core.tasks && s.core.tasks[p].state.Running? && Enabled(s, p, act)
    ensures Inv(Executed(s, p, act)) && Since(s.core, Executed(s, p, act).core)
  {
    hide Inv, CoreOk, Since, W.Inv, F.Inv, W.Step, Numbered;
    Parts(s, p);
    Unblocked(s.core, p);
    var c, t := s.core, s.core.tasks[p];
    match act
    case TryPipe(_, _) => TryPipeKeeps(s, p, act);
    case FutexCall(_, _) => FutexCallKeeps(s, p, act);
    case WaitChild(_, _) => WaitChildKeeps(s, p, act);
    case ForkCall(_, _) => SpawnKeeps(s, p, act);
    case CloneCall(_, _, _) => SpawnKeeps(s, p, act);
    case ExitCall(_, _, _) => ExitKeeps(s, p, act);
    case Plain(v) => ReturnsKeeps(s, p, t.(result := v), s.files);
    case FileCall(op, after, v) =>
      LocalElsewhere(s.files, op, after, t.table);
      W.StepKeeps(s.files, op, after);
      StillNumbered(s.files, after, t.table, c.nextPid, c.nextPid);
      ReturnsKeeps(s, p, t.(result := v), after);
    case _ =>
      PutTwice(c, p, t, t.(state := Faulted), [Executes(p)], [], false);
      assert [Executes(p)] + [] == [Executes(p)];
      ReturnsKeeps(s, p, t.(state := Faulted), s.files);
  }

  // ---------------------------------------------------------------- what an instruction does

  /** Every other task is as it was, except that `child`, if it is one, has been reaped. */
  ghost predicate OthersSame(c: Core, d: Core, p: int, child: int) {
    forall q :: q in c.tasks && q != p ==>
      q in d.tasks && d.tasks[q] == if q == child then c.tasks[q].(reaped := true) else c.tasks[q]
  }

  /** The effect of an instruction of the running task `p` on tasks and futexes, by what it is:
      - a call that returns leaves its value; one that blocks leaves its record and blocks the task;
      - fork and clone give the parent the number of a new task, and make it, ready, with the value 0: the
        child of a fork has a table of its own, a thread its creator's;
      - a wake returns how many waiters it released, which are the oldest ones;
      - wait4 returns what `WaitGives` says, and reaps the child that it returns;
      - exit ends the task with its code, and a fault stops it. */
  ghost predicate Does(s: Sys, p: int, act: Act, x: Sys)
    requires p in s.core.tasks && p in x.core.tasks
  {
    var c, t, u, pid := s.core, s.core.tasks[p], x.core.tasks[p], s.core.nextPid;
    && (!act.FutexCall? ==> x.futex == s.futex) && u.parent == t.parent && u.table == t.table
    && (u.state.Blocked? || u == t.(result := u.result, state := u.state, exitCode := u.exitCode, reaped := u.reaped))
    && (!act.WaitChild? ==> OthersSame(c, x.core, p, p))
    && match act
       case Plain(v) => u.state.Running? && u.result == v && x.files == s.files
       case FileCall(_, after, v) => u.state.Running? && u.result == v && x.files == after
       case TryPipe(call, stored) =>
         if StuckPipe(s.files, (t.table, call.fd), call)
         then u == t.(state := Blocked, pipe := Some(call)) && x.files == s.files
         else u.state.Running? && Attempt(s.files, (t.table, call.fd), call, stored) == Some(Tried(u.result, x.files))
       case FutexCall(Waiting(_, a, deadline), _) =>
         && u == t.(state := Blocked) && p in x.futex.blocked
           && x.futex.blocked[p] == F.Block(a, s.futex.next, deadline)
         && F.QueueAt(x.futex.queues, a) == F.QueueAt(s.futex.queues, a) + [s.futex.next]
         && x.futex.closed == s.futex.closed
       case FutexCall(Waking(a, n), _) =>
         u.state.Running? && 0 <= u.result && F.Wakes(s.futex, a, n, u.result, x.futex)
       case WaitChild(w, stored) =>
         && WaitGives(c.tasks, c.order, p, w, stored, u.result) && OthersSame(c, x.core, p, u.result)
         && if u.result == -EAGAIN then u == t.(state := Blocked, result := -EAGAIN, waiting := Some(w))
            else u.state.Running?
       case ForkCall(_, _) =>
         u.state.Running? && u.result == pid && NewTask(c, x.core, Task(Ready, p, pid, false, 0, None, None, 0))
       case CloneCall(stored, _, _) =>
         && u.state.Running? && x.core.nextPid == pid + 1
         && if stored then u.result == pid && NewTask(c, x.core, Task(Ready, p, t.table, false, 0, None, None, 0))
            else u.result == -EFAULT && x.core.order == c.order
       case ExitCall(code, _, _) => u.state.Exited? && u.exitCode == code
       case CpuFault => u.state.Faulted?
       case Halt => u.state.Faulted?
       case _ => u.state.Running?
  }

  ghost predicate NewTask(c: Core, d: Core, t: Task) {
    && d.order == c.order + [c.nextPid] && d.nextPid == c.nextPid + 1
    && c.nextPid in d.tasks && d.tasks[c.nextPid] == t
  }

  lemma ExecutedDoes(s: Sys, p: int, act: Act)
    requires Inv(s) && p in s.core.tasks && s.core.tasks[p].state.Running? && Enabled(s, p, act)
    ensures Does(s, p, act, Executed(s, p, act))
  {
    Parts(s, p);
    Unblocked(s.core, p);
    hide Inv, CoreOk, W.Inv, F.Inv, Does;
    match act
    case TryPipe(_, _) => PipeDoes(s, p, act);
    case FutexCall(_, _) => FutexDoes(s, p, act);
    case WaitChild(_, _) => WaitDoes(s, p, act);
    case _ => PlainDoes(s, p, act);
  }

  /** The task has no block record. */
  ghost predicate Free(s: Sys, p: int) {
    && p in s.core.tasks && s.core.tasks[p].state.Running? && !AnyRecord(s.core.tasks[p], p in s.core.futex)
    && 0 < p < s.core.nextPid
  }

  lemma PipeDoes(s: Sys, p: int, act: Act)
    requires Free(s, p) && W.Inv(s.files) && act.TryPipe?
    ensures Does(s, p, act, Executed(s, p, act))
  {
    hide W.Inv, Attempt, StuckPipe;
    AttemptBlocksIff(s.files, (s.core.tasks[p].table, act.call.fd), act.call, act.stored);
  }

  lemma FutexDoes(s: Sys, p: int, act: Act)
    requires Free(s, p) && act.FutexCall? && Enabled(s, p, act)
    ensures Does(s, p, act, Executed(s, p, act))
  {
    hide F.QueueAt, F.WithQueue, F.Wakes, F.WakeCount, F.Woken;
    match act.event
    case Waking(a, n) => F.WokenWakes(s.futex, a, n);
    case Waiting(_, a, _) => F.QueueAfter(s.futex.queues, a, F.QueueAt(s.futex.queues, a) + [s.futex.next], a);
    case _ =>
  }

  lemma WaitDoes(s: Sys, p: int, act: Act)
    requires Free(s, p) && act.WaitChild?
    requires forall q :: q in s.core.tasks || q in s.core.order ==> q > 0
    ensures Does(s, p, act, Executed(s, p, act))
  {
    hide WaitResult, WaitGives, StatusOf;
    var c, w, x := s.core, act.wait, Executed(s, p, act);
    var r := WaitResult(c.tasks, c.order, p, w, act.stored);
    WaitMeans(c.tasks, c.order, p, w, act.stored);
    assert OthersSame(c, x.core, p, r);
  }

  lemma PlainDoes(s: Sys, p: int, act: Act)
    requires Free(s, p) && !act.TryPipe? && !act.FutexCall? && !act.WaitChild? && s.core.nextPid !in s.core.tasks
    ensures Does(s, p, act, Executed(s, p, act))
  {
    hide Last;
  }

  // ---------------------------------------------------------------- completing a blocked call

  /** What resuming finds out: whether bytes read or a status can be stored, and whether a futex deadline
      has passed. */
  datatype Answer = Answer(stored: bool, expired: bool)

  /** The effect of completing the blocked call of `p`, if it can complete: the record is cleared, the
      task becomes Ready, and the call returns. */
  ghost function Resumed(s: Sys, p: int, a: Answer): (r: Option<Sys>)
    requires p in s.core.tasks
    ensures r.Some? ==> p in r.value.core.tasks
  {
    var c, t := s.core, s.core.tasks[p];
    if t.waiting.Some? then
      var w := t.waiting.value;
      var r := WaitResult(c.tasks, c.order, p, w, a.stored);
      if r == -EAGAIN then None
      else
        var after := WaitTasks(c.tasks[p := t.(waiting := None)], c.order, p, w, a.stored);
        Some(s.(core := c.(tasks := after[p := after[p].(waiting := None, result := r, state := Ready)],
                           log := c.log + [Completes(p, r)] + [Waited(p, w, r, StatusOf(c.tasks, w, r))])))
    else if p in s.futex.blocked then
      if !F.CanEnd(s.futex, p, a.expired) then None
      else
        var r := if s.futex.blocked[p].deadline && a.expired then -ETIMEDOUT else 0;
        Some(s.(core := Put(c, p, t.(result := r, state := Ready), [Completes(p, r)], false),
                futex := F.Left(s.futex, p)))
    else if t.pipe.Some? then
      var o := Attempt(s.files, (t.table, t.pipe.value.fd), t.pipe.value, a.stored);
      if o.None? then None
      else
        var r := o.value.result;
        Some(s.(core := Put(c, p, t.(pipe := None, result := r, state := Ready), [Completes(p, r)], false),
                files := o.value.files))
    else Some(s.(core := Put(c, p, t.(state := Ready), [], false)))
  }

  lemma WaitCompletes(c: Core, p: int, w: WaitCall, stored: bool)
    requires CoreOk(c) && p in c.tasks && c.tasks[p].state.Blocked? && c.tasks[p].waiting == Some(w)
    requires WaitResult(c.tasks, c.order, p, w, stored) != -EAGAIN
    ensures var r := WaitResult(c.tasks, c.order, p, w, stored);
            var after := WaitTasks(c.tasks[p := c.tasks[p].(waiting := None)], c.order, p, w, stored);
            && p in after && after[p].pipe.None? && p !in c.futex
            && var x := c.(tasks := after[p := after[p].(waiting := None, result := r, state := Ready)],
                           log := c.log + [Completes(p, r)] + [Waited(p, w, r, StatusOf(c.tasks, w, r))]);
               CoreOk(x) && Since(c, x)
  {
    hide CoreOk, Since, FirstMatch;
    var r := WaitResult(c.tasks, c.order, p, w, stored);
    IsBlocked(c, p);
    var t := c.tasks[p].(waiting := None, result := r, state := Ready);
    var y := Put(c, p, t, [Completes(p, r)], false);
    CompleteKeeps(c, p, t);
    WaitIgnores(c.tasks, c.order, p, c.tasks[p].(waiting := None), w, stored);
    WaitIgnores(c.tasks, c.order, p, t, w, stored);
    ReturnKeeps(y, p, w, stored, r);
    var x := y.(tasks := WaitTasks(y.tasks, y.order, p, w, stored),
                log := y.log + [Waited(p, w, r, StatusOf(y.tasks, w, r))]);
    SinceTransitive(c, y, x);
    var after := WaitTasks(c.tasks[p := c.tasks[p].(waiting := None)], c.order, p, w, stored);
    assert after[p := after[p].(waiting := None, result := r, state := Ready)] == x.tasks;
    assert y.futex == c.futex;
  }

  ghost predicate Awake(s: Sys, p: int) {
    p in s.core.tasks && s.core.tasks[p].state.Ready? && !AnyRecord(s.core.tasks[p], p in s.core.futex)
  }

  lemma ResumedFutex(s: Sys, p: int, a: Answer)
    requires Inv(s) && p in s.core.tasks && s.core.tasks[p].state.Blocked? && p in s.futex.blocked
             && Resumed(s, p, a).Some?
    ensures var x := Resumed(s, p, a).value; Inv(x) && Since(s.core, x.core) && Awake(x, p)
  {
    hide Inv, CoreOk, Since, W.Inv, F.Inv, F.QueueAt, F.WithQueue, F.Without, WaitResult;
    Parts(s, p);
    IsBlocked(s.core, p);
    var x := Resumed(s, p, a).value;
    var t := x.core.tasks[p];
    CompleteKeeps(s.core, p, t);
    F.StepKeeps(s.futex, F.Resuming(p, a.expired), F.Left(s.futex, p));
    assert s.futex.blocked.Keys - {p} == F.Left(s.futex, p).blocked.Keys;
    Whole(x);
  }

  lemma ResumedPipe(s: Sys, p: int, a: Answer)
    requires Inv(s) && p in s.core.tasks && s.core.tasks[p].state.Blocked? && s.core.tasks[p].pipe.Some?
             && Resumed(s, p, a).Some?
    ensures var x := Resumed(s, p, a).value; Inv(x) && Since(s.core, x.core) && Awake(x, p)
  {
    hide Inv, CoreOk, Since, W.Inv, F.Inv, Attempt, WaitResult;
    Parts(s, p);
    IsBlocked(s.core, p);
    var c := s.core.tasks[p].pipe.value;
    AttemptKeeps(s.files, (s.core.tasks[p].table, c.fd), c, a.stored);
    var x := Resumed(s, p, a).value;
    CompleteKeeps(s.core, p, x.core.tasks[p]);
    NoFutex(s, p, x.core.tasks[p], [Completes(p, x.core.tasks[p].result)]);
    Whole(x);
  }

  lemma ResumedKeeps(s: Sys, p: int, a: Answer)
    requires Inv(s) && p in s.core.tasks && s.core.tasks[p].state.Blocked? && Resumed(s, p, a).Some?
    ensures var x := Resumed(s, p, a).value; Inv(x) && Since(s.core, x.core) && Awake(x, p)
  {
    hide Inv, CoreOk, Since, W.Inv, F.Inv, Attempt, WaitResult, F.CanEnd;
    Parts(s, p);
    IsBlocked(s.core, p);
    if s.core.tasks[p].waiting.Some? {
      WaitCompletes(s.core, p, s.core.tasks[p].waiting.value, a.stored);
      Whole(Resumed(s, p, a).value);
    } else if p in s.futex.blocked {
      ResumedFutex(s, p, a);
    } else {
      ResumedPipe(s, p, a);
    }
  }

  /** What completing the blocked call of `p` does: its records are gone, it is Ready, and it has the result of
      its wait4 made now, of its futex wait, ETIMEDOUT if its deadline has passed and else 0, or of its read
      or write tried now. */
  ghost predicate Completing(s: Sys, p: int, a: Answer, x: Sys)
    requires p in s.core.tasks && p in x.core.tasks
  {
    var c, t, u := s.core, s.core.tasks[p], x.core.tasks[p];
    && u == t.(state := Ready, waiting := None, pipe := None, result := u.result) && p !in x.futex.blocked
    && if t.waiting.Some? then
         && WaitGives(c.tasks, c.order, p, t.waiting.value, a.stored, u.result) && u.result != -EAGAIN
         && OthersSame(c, x.core, p, u.result) && x.files == s.files && x.futex == s.futex
       else if p in s.futex.blocked then
         && u.result == (if s.futex.blocked[p].deadline && a.expired then -ETIMEDOUT else 0)
         && OthersSame(c, x.core, p, p) && x.files == s.files
         && x.futex.blocked == s.futex.blocked - {p} && x.futex.closed == s.futex.closed
       else
         && t.pipe.Some? && OthersSame(c, x.core, p, p) && x.futex == s.futex
         && Attempt(s.files, (t.table, t.pipe.value.fd), t.pipe.value, a.stored) == Some(Tried(u.result, x.files))
  }

  lemma ResumedCompletes(s: Sys, p: int, a: Answer)
    requires Inv(s) && p in s.core.tasks && s.core.tasks[p].state.Blocked? && Resumed(s, p, a).Some?
    ensures Completing(s, p, a, Resumed(s, p, a).value)
  {
    Parts(s, p);
    IsBlocked(s.core, p);
    BlockedOnce(s, p);
    var t := s.core.tasks[p];
    if t.waiting.Some? {
      WaitAgainDoes(s, p, a);
    } else {
      hide Inv, CoreOk, W.Inv, F.Inv, WaitResult, Attempt, F.QueueAt, F.WithQueue, F.Without;
    }
  }

  lemma WaitAgainDoes(s: Sys, p: int, a: Answer)
    requires p in s.core.tasks && s.core.tasks[p].waiting.Some? && Resumed(s, p, a).Some?
    requires s.core.tasks[p].state.Blocked? && s.core.tasks[p].pipe.None? && p !in s.futex.blocked
    requires forall q :: q in s.core.tasks || q in s.core.order ==> q > 0
    ensures Completing(s, p, a, Resumed(s, p, a).value)
  {
    var c, t, x := s.core, s.core.tasks[p], Resumed(s, p, a).value;
    var w, cleared := t.waiting.value, s.core.tasks[p := t.(waiting := None)];
    var r := WaitResult(c.tasks, c.order, p, w, a.stored);
    WaitMeans(c.tasks, c.order, p, w, a.stored);
    WaitIgnores(c.tasks, c.order, p, t.(waiting := None), w, a.stored);
    NotItself(c.tasks, c.order, p, w, a.stored);
    hide WaitResult, WaitGives, StatusOf;
    assert OthersSame(c, x.core, p, r);
  }

  /** A task that has not exited is not what a wait4 returns. */
  lemma NotItself(tasks: map<int, Task>, order: seq<int>, p: int, w: WaitCall, stored: bool)
    requires p in tasks && p > 0 && !tasks[p].state.Exited?
    ensures WaitResult(tasks, order, p, w, stored) != p
  {
  }

  // ---------------------------------------------------------------- one step of a process

  /** What becomes of the signal, if any, that a task takes instead of an instruction. */
  datatype SignalTaken = NoSignal | Ignored | Deadly(number: int) | Handled(delivered: bool)

  function Signalled(t: Task, sig: SignalTaken): Task {
    match sig
    case Deadly(n) => t.(state := Exited, exitCode := 128 + n)
    case Handled(delivered) => if delivered then t else t.(state := Faulted)
    case _ => t
  }

  /** A step of the task `pid`. */
  datatype Turn = Turn(pid: int, answer: Answer, signal: SignalTaken, act: Act)

  ghost function Dispatched(s: Sys, p: int): (r: Sys)
    requires p in s.core.tasks
    ensures p in r.core.tasks
  {
    s.(core := Put(s.core, p, s.core.tasks[p].(state := Running), [], p in s.core.futex))
  }

  /** A task that is not blocked takes a signal or executes an instruction. */
  ghost function Acted(s: Sys, u: Turn): Sys
    requires u.pid in s.core.tasks
  {
    var x := Dispatched(s, u.pid);
    if u.signal.NoSignal? then Executed(x, u.pid, u.act)
    else x.(core := Put(x.core, u.pid, Signalled(x.core.tasks[u.pid], u.signal), [], u.pid in x.core.futex))
  }

  /** The state in which a task acts, if it acts. */
  ghost function Woken(s: Sys, p: int, a: Answer): (r: Option<Sys>)
    requires p in s.core.tasks
    ensures r.Some? ==> p in r.value.core.tasks
  {
    if s.core.tasks[p].state.Exited? || s.core.tasks[p].state.Faulted? then None
    else if s.core.tasks[p].state.Blocked? then Resumed(s, p, a)
    else Some(s)
  }

  /** The instruction of the turn is one the task can execute when it gets to it. */
  ghost predicate Possible(s: Sys, u: Turn) {
    && u.pid in s.core.tasks
    && (Woken(s, u.pid, u.answer).Some? && u.signal.NoSignal? ==>
        Enabled(Dispatched(Woken(s, u.pid, u.answer).value, u.pid), u.pid, u.act))
  }

  /** The effect of one step of a process: nothing if it has exited or faulted, or is blocked and cannot
      resume. */
  ghost function Stepped(s: Sys, u: Turn): Sys
    requires u.pid in s.core.tasks
  {
    var x := Woken(s, u.pid, u.answer);
    if x.None? then s else Acted(x.value, u)
  }

  lemma DispatchedKeeps(s: Sys, p: int)
    requires Inv(s) && p in s.core.tasks && (s.core.tasks[p].state.Ready? || s.core.tasks[p].state.Running?)
    ensures Inv(Dispatched(s, p)) && Since(s.core, Dispatched(s, p).core)
            && Dispatched(s, p).core.tasks[p].state.Running?
  {
    hide Inv, CoreOk, Since, W.Inv, F.Inv, Numbered;
    Parts(s, p);
    Unblocked(s.core, p);
    var t := s.core.tasks[p].(state := Running);
    QuietKeeps(s.core, p, t);
    NoFutex(s, p, t, []);
    Whole(Dispatched(s, p));
  }

  lemma SignalKeeps(s: Sys, p: int, sig: SignalTaken)
    requires Inv(s) && p in s.core.tasks && s.core.tasks[p].state.Running?
    ensures var x := s.(core := Put(s.core, p, Signalled(s.core.tasks[p], sig), [], p in s.core.futex));
            Inv(x) && Since(s.core, x.core)
  {
    hide Inv, CoreOk, Since, W.Inv, F.Inv, Numbered;
    Parts(s, p);
    Unblocked(s.core, p);
    var t := Signalled(s.core.tasks[p], sig);
    QuietKeeps(s.core, p, t);
    NoFutex(s, p, t, []);
    Whole(s.(core := Put(s.core, p, t, [], p in s.core.futex)));
  }

  lemma ActedKeeps(s: Sys, u: Turn)
    requires Inv(s) && u.pid in s.core.tasks && (s.core.tasks[u.pid].state.Ready? || s.core.tasks[u.pid].state.Running?)
    requires u.signal.NoSignal? ==> Enabled(Dispatched(s, u.pid), u.pid, u.act)
    ensures Inv(Acted(s, u)) && Since(s.core, Acted(s, u).core)
  {
    hide Inv, Since, Executed, Enabled, Dispatched, Put;
    var x := Dispatched(s, u.pid);
    DispatchedKeeps(s, u.pid);
    if u.signal.NoSignal? { ExecutedKeeps(x, u.pid, u.act); } else { SignalKeeps(x, u.pid, u.signal); }
    SinceTransitive(s.core, x.core, Acted(s, u).core);
  }

  /** Every step of every process keeps the invariant, and nothing that is final changes. */
  lemma SteppedKeeps(s: Sys, u: Turn)
    requires Inv(s) && Possible(s, u)
    ensures Inv(Stepped(s, u)) && Since(s.core, Stepped(s, u).core)
  {
    hide Inv, Since, Executed, Enabled, Dispatched, Acted, Resumed;
    SinceSelf(s.core);
    var x := Woken(s, u.pid, u.answer);
    if x.Some? {
      if s.core.tasks[u.pid].state.Blocked? { ResumedKeeps(s, u.pid, u.answer); }
      ActedKeeps(x.value, u);
      SinceTransitive(s.core, x.value.core, Stepped(s, u).core);
    }
  }

  // ---------------------------------------------------------------- when a task is stuck

  /** The first child the wait4 would return is still alive. */
  ghost predicate StuckChild(c: Core, p: int, w: WaitCall) {
    var k := FirstMatch(c.tasks, c.order, p, w.requested);
    !w.nohang && k.Some? && !c.tasks[k.value].state.Exited?
  }

  /** The task waits for a live child, on a futex that no wake has released and whose deadline has not
      passed, or on a pipe. */
  ghost predicate Stuck(s: Sys, p: int, a: Answer)
    requires p in s.core.tasks
  {
    var t := s.core.tasks[p];
    || (t.waiting.Some? && StuckChild(s.core, p, t.waiting.value))
    || (p in s.futex.blocked && s.futex.blocked[p].waiter !in s.futex.closed
        && !(s.futex.blocked[p].deadline && a.expired))
    || (t.pipe.Some? && StuckPipe(s.files, (t.table, t.pipe.value.fd), t.pipe.value))
  }

  /** A task the scheduler would pick: it has not exited and, if blocked, its call can complete. */
  ghost predicate CanRun(s: Sys, p: int, a: Answer) {
    && p in s.core.tasks && !s.core.tasks[p].reaped && !s.core.tasks[p].state.Exited?
    && (s.core.tasks[p].state.Blocked? ==> Resumed(s, p, a).Some?)
  }

  lemma BlockedOnce(s: Sys, p: int)
    requires Inv(s) && p in s.core.tasks
    ensures var t := s.core.tasks[p];
            && (t.state.Blocked? <==> t.waiting.Some? || t.pipe.Some? || p in s.futex.blocked)
            && !(t.waiting.Some? && t.pipe.Some?) && !(p in s.futex.blocked && (t.waiting.Some? || t.pipe.Some?))
            && (t.reaped ==> t.state.Exited?)
  {
    assert TaskOk(s.core.log, p, s.core.tasks[p], p in s.core.futex);
  }

  /** A task can go on unless it has exited, reads an empty pipe that has a writer, writes a full pipe that
      has a reader, waits on a futex that has not been released, or waits for a child that is alive. */
  lemma RunsUnlessStuck(s: Sys, p: int, a: Answer)
    requires Inv(s) && p in s.core.tasks
    ensures CanRun(s, p, a) <==> !s.core.tasks[p].state.Exited? && !Stuck(s, p, a)
  {
    hide Inv, CoreOk, W.Inv, F.Inv, Attempt, StuckPipe, Put, F.Left, FirstMatch;
    Parts(s, p);
    BlockedOnce(s, p);
    var t := s.core.tasks[p];
    if t.pipe.Some? { AttemptBlocksIff(s.files, (t.table, t.pipe.value.fd), t.pipe.value, a.stored); }
  }

  // ---------------------------------------------------------------- over every run

  /** One process, with nothing open. */
  ghost function Initial(root: int): Sys {
    Sys(Core(map[root := Child(0, root)], [root], root + 1, [], {}), W.World(map[], {}, map[]),
        F.Snapshot(map[], {}, 0, map[]))
  }

  lemma InitialOk(root: int)
    requires root > 0
    ensures Inv(Initial(root))
  {
    W.InitialWorld();
    F.InitialTable();
  }

  /** Any number of steps of any processes in any order. */
  ghost predicate Path(ss: seq<Sys>, us: seq<Turn>) {
    |ss| == |us| + 1 && forall n :: 0 <= n < |us| ==> Goes(ss[n], us[n], ss[n + 1])
  }

  ghost predicate Run(ss: seq<Sys>, us: seq<Turn>) {
    Path(ss, us) && exists root :: root > 0 && ss[0] == Initial(root)
  }

  lemma PathGrows(ss: seq<Sys>, us: seq<Turn>, u: Turn, t: Sys)
    requires Path(ss, us) && Goes(ss[|us|], u, t)
    ensures Path(ss + [t], us + [u])
  {
    hide Goes;
    var xs, vs := ss + [t], us + [u];
    forall n | 0 <= n < |vs| ensures Goes(xs[n], vs[n], xs[n + 1]) {
      if n < |us| { assert Goes(ss[n], us[n], ss[n + 1]); }
    }
  }

  ghost predicate Goes(s: Sys, u: Turn, t: Sys) {
    Possible(s, u) && t == Stepped(s, u)
  }

  lemma {:induction false} RunKeeps(ss: seq<Sys>, us: seq<Turn>, n: nat)
    requires Run(ss, us) && n < |ss|
    ensures Inv(ss[n])
  {
    hide Inv, Initial, Possible, Stepped;
    if n == 0 {
      var root :| root > 0 && ss[0] == Initial(root);
      InitialOk(root);
    } else {
      RunKeeps(ss, us, n - 1);
      assert Goes(ss[n - 1], us[n - 1], ss[n - 1 + 1]);
      SteppedKeeps(ss[n - 1], us[n - 1]);
    }
  }

  lemma {:induction false} RunSince(ss: seq<Sys>, us: seq<Turn>, i: nat, j: nat)
    requires Run(ss, us) && i <= j < |ss|
    ensures Since(ss[i].core, ss[j].core)
    decreases j - i
  {
    hide Inv, Initial, Possible, Stepped, Since;
    if i == j { SinceSelf(ss[i].core); } else {
      RunSince(ss, us, i, j - 1);
      RunKeeps(ss, us, j - 1);
      assert Goes(ss[j - 1], us[j - 1], ss[j - 1 + 1]);
      SteppedKeeps(ss[j - 1], us[j - 1]);
      SinceTransitive(ss[i].core, ss[j - 1].core, ss[j].core);
    }
  }

  /** In every state of every run a task is blocked exactly when it has one of the three records, and
      then it has one only. */
  lemma BlockedIffRecorded(ss: seq<Sys>, us: seq<Turn>, n: nat, p: int)
    requires Run(ss, us) && n < |ss| && p in ss[n].core.tasks
    ensures var t, onFutex := ss[n].core.tasks[p], p in ss[n].futex.blocked;
            && (t.state.Blocked? <==> t.waiting.Some? || t.pipe.Some? || onFutex)
            && !(t.waiting.Some? && t.pipe.Some?) && !(t.waiting.Some? && onFutex) && !(t.pipe.Some? && onFutex)
  {
    RunKeeps(ss, us, n);
    BlockedOnce(ss[n], p);
  }

  lemma RunLog(ss: seq<Sys>, us: seq<Turn>, n: nat)
    requires Run(ss, us) && n < |ss|
    ensures LogOk(ss[n].core.log)
  {
    RunKeeps(ss, us, n);
  }

  /** In every run, from the time a call blocks until it completes its task executes nothing. */
  lemma NothingWhileBlockedInRun(ss: seq<Sys>, us: seq<Turn>, n: nat, p: int, i: nat, j: nat)
    requires Run(ss, us) && n < |ss| && i < j < |ss[n].core.log| && ss[n].core.log[i] == Blocks(p)
    requires forall k :: i < k < j ==> !(ss[n].core.log[k].Completes? && ss[n].core.log[k].pid == p)
    ensures ss[n].core.log[j] != Executes(p) && ss[n].core.log[j] != Blocks(p)
  {
    RunLog(ss, us, n);
    NothingWhileBlocked(ss[n].core.log, p, i, j);
  }

  /** In every run, a blocked call completes at most once. */
  lemma CompletesOnceInRun(ss: seq<Sys>, us: seq<Turn>, n: nat, p: int, i: nat, j: nat)
    requires Run(ss, us) && n < |ss| && i < j < |ss[n].core.log|
    requires ss[n].core.log[i].Completes? && ss[n].core.log[j].Completes?
             && ss[n].core.log[i].pid == p == ss[n].core.log[j].pid
    ensures exists k :: i < k < j && ss[n].core.log[k] == Blocks(p)
  {
    RunLog(ss, us, n);
    CompletesOnce(ss[n].core.log, p, i, j);
  }

  /** In every run, a wait4 that has returned gave an exited child of the caller, the one it asked for if it
      asked for one, with its status; or 0 with WNOHANG, ECHILD or EFAULT. */
  lemma WaitedInRun(ss: seq<Sys>, us: seq<Turn>, n: nat, i: nat)
    requires Run(ss, us) && n < |ss| && i < |ss[n].core.log|
    ensures WaitOk(ss[n].core.tasks, ss[n].core.log[i])
  {
    RunKeeps(ss, us, n);
  }

  /** In every run, no child is returned by two wait4 calls. */
  lemma ReturnedOnceInRun(ss: seq<Sys>, us: seq<Turn>, n: nat, i: nat, j: nat)
    requires Run(ss, us) && n < |ss| && i < j < |ss[n].core.log|
    requires ss[n].core.log[i].Waited? && ss[n].core.log[j].Waited? && ss[n].core.log[i].result > 0
    ensures ss[n].core.log[i].result != ss[n].core.log[j].result
    ensures WaitOk(ss[n].core.tasks, ss[n].core.log[i]) && WaitOk(ss[n].core.tasks, ss[n].core.log[j])
  {
    RunKeeps(ss, us, n);
    ReturnedOnce(ss[n].core.log, i, j);
  }

  /** A turn that ends its task leaves it exited: with the code of its exit call or, when a signal killed it,
      128 more than the signal's number. */
  lemma TurnEnds(s: Sys, u: Turn)
    requires Inv(s) && Possible(s, u) && Woken(s, u.pid, u.answer).Some?
    requires u.signal.Deadly? || (u.signal.NoSignal? && u.act.ExitCall?)
    ensures u.pid in Stepped(s, u).core.tasks
    ensures Stepped(s, u).core.tasks[u.pid].state.Exited?
    ensures Stepped(s, u).core.tasks[u.pid].exitCode == if u.signal.Deadly? then 128 + u.signal.number else u.act.code
  {
    hide Inv, Executed, Enabled, Resumed, Put, Does;
    var y := Woken(s, u.pid, u.answer).value;
    if s.core.tasks[u.pid].state.Blocked? { ResumedKeeps(s, u.pid, u.answer); }
    DispatchedKeeps(y, u.pid);
    if u.signal.NoSignal? { EndsByExit(Dispatched(y, u.pid), u.pid, u.act); } else { EndsBySignal(y, u); }
  }

  lemma EndsByExit(s: Sys, p: int, act: Act)
    requires Inv(s) && p in s.core.tasks && s.core.tasks[p].state.Running? && Enabled(s, p, act) && act.ExitCall?
    ensures Executed(s, p, act).core.tasks[p].state.Exited? && Executed(s, p, act).core.tasks[p].exitCode == act.code
  {
    hide Inv, Executed, Enabled;
    ExecutedDoes(s, p, act);
  }

  lemma EndsBySignal(s: Sys, u: Turn)
    requires u.pid in s.core.tasks && u.signal.Deadly?
    ensures u.pid in Acted(s, u).core.tasks && Acted(s, u).core.tasks[u.pid].state.Exited?
    ensures Acted(s, u).core.tasks[u.pid].exitCode == 128 + u.signal.number
  {
  }

  /** In every run, the status a parent gets for a child is that of the turn that ended it: the low byte of its
      exit code or of 128 plus the number of the signal that killed it, in the second byte of the word. */
  lemma StatusInRun(ss: seq<Sys>, us: seq<Turn>, m: nat, n: nat, i: nat)
    requires Run(ss, us) && m < n < |ss| && i < |ss[n].core.log| && us[m].pid in ss[m].core.tasks
    requires Woken(ss[m], us[m].pid, us[m].answer).Some?
    requires us[m].signal.Deadly? || (us[m].signal.NoSignal? && us[m].act.ExitCall?)
    requires var e := ss[n].core.log[i]; e.Waited? && e.result == us[m].pid && e.call.status
    ensures var code := if us[m].signal.Deadly? then 128 + us[m].signal.number else us[m].act.code;
            ss[n].core.log[i].status == Some(code % 0x100 * 0x100)
  {
    hide Inv, Stepped, Possible, Initial, Woken;
    RunKeeps(ss, us, m);
    assert Goes(ss[m], us[m], ss[m + 1]);
    TurnEnds(ss[m], us[m]);
    RunSince(ss, us, m + 1, n);
    WaitedInRun(ss, us, n, i);
    PositivePid(ss[m], us[m].pid);
  }

  lemma PositivePid(s: Sys, p: int)
    requires Inv(s) && p in s.core.tasks
    ensures p > 0
  {
  }

  /** In every run, exited tasks stay exited with the same status, reaped ones stay reaped, and the log
      only grows. */
  lemma ExitedForever(ss: seq<Sys>, us: seq<Turn>, i: nat, j: nat, p: int)
    requires Run(ss, us) && i <= j < |ss| && p in ss[i].core.tasks
    ensures ss[i].core.log <= ss[j].core.log && p in ss[j].core.tasks
    ensures ss[i].core.tasks[p].state.Exited? ==>
              ss[j].core.tasks[p].state.Exited? && ss[j].core.tasks[p].exitCode == ss[i].core.tasks[p].exitCode
    ensures ss[i].core.tasks[p].reaped ==> ss[j].core.tasks[p].reaped
  {
    RunSince(ss, us, i, j);
  }
}
