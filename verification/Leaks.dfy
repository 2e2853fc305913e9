/** Descriptors that no task can close any more: how a table gets lost, and what becomes of the pipes whose
    ends it holds. */
module Leaks {
  import opened Words
  import opened Pipes
  import opened Tasks
  import opened Systems
  import W = PipeWorlds
  import F = Futexes

  // ---------------------------------------------------------------- descriptors that nothing can close

  /** A descriptor table that no task uses that has not exited. */
  ghost predicate Dropped(s: Sys, table: int) {
    && 0 < table < s.core.nextPid
    && forall p :: p in s.core.tasks && !s.core.tasks[p].state.Exited? ==> s.core.tasks[p].table != table
  }

  ghost predicate SameSlots(w: W.World, x: W.World, table: int) {
    && (forall k :: k in w.fds && k.0 == table ==> k in x.fds && x.fds[k] == w.fds[k])
    && (forall k :: k in x.fds && k.0 == table ==> k in w.fds)
  }

  /** The table stays dropped and is as it was. */
  ghost predicate StaysDropped(s: Sys, t: Sys, table: int) {
    Dropped(t, table) && SameSlots(s.files, t.files, table)
  }

  ghost function Touched(s: Sys, p: int, act: Act): W.World
    requires p in s.core.tasks
  {
    match act
    case FileCall(_, after, _) => after
    case TryPipe(call, stored) =>
      var o := Attempt(s.files, (s.core.tasks[p].table, call.fd), call, stored);
      if o.None? then s.files else o.value.files
    case ForkCall(order, mids) => Last(order, mids, s.files)
    case CloneCall(_, order, mids) => Last(order, mids, s.files)
    case _ => s.files
  }

  lemma CalledTouches(s: Sys, p: int, act: Act)
    requires p in s.core.tasks
    ensures Called(s, p, act).files == Touched(s, p, act)
  {
    hide Attempt, WaitResult, WaitTasks, Put, Born;
  }

  lemma SlotsElsewhere(w: W.World, x: W.World, changed: int, table: int)
    requires (Elsewhere(w, x, changed) && table != changed) || x.fds == w.fds
    ensures SameSlots(w, x, table)
  {
  }

  lemma CalledFiles(s: Sys, p: int, act: Act, table: int)
    requires Inv(s) && p in s.core.tasks && s.core.tasks[p].state.Running? && Enabled(s, p, act) && Dropped(s, table)
    ensures SameSlots(s.files, Called(s, p, act).files, table)
    ensures act.ExitCall? && s.core.tasks[p].table == p ==>
            SameSlots(s.files, Last(act.order, act.mids, s.files), table)
  {
    CalledTouches(s, p, act);
    assert W.Inv(s.files) && s.core.tasks[p].table != table;
    hide Inv, W.Inv, W.Step, Attempt, Called, Elsewhere, SameSlots;
    var t, w, x := s.core.tasks[p], s.files, Touched(s, p, act);
    match act
    case FileCall(op, after, _) =>
      LocalElsewhere(w, op, after, t.table);
      SlotsElsewhere(w, x, t.table, table);
    case TryPipe(call, stored) =>
      if Attempt(w, (t.table, call.fd), call, stored).Some? { AttemptKeeps(w, (t.table, call.fd), call, stored); }
      SlotsElsewhere(w, x, t.table, table);
    case ForkCall(order, mids) =>
      ForkElsewhere(w, W.Forks(t.table, s.core.nextPid, order, mids), x);
      SlotsElsewhere(w, x, s.core.nextPid, table);
    case CloneCall(_, order, mids) =>
      ForkElsewhere(w, W.Forks(t.table, s.core.nextPid, order, mids), x);
      SlotsElsewhere(w, x, s.core.nextPid, table);
    case ExitCall(_, order, mids) =>
      SlotsElsewhere(w, w, p, table);
      if t.table == p {
        LocalElsewhere(w, W.Sheds(W.Owned(w.fds.Keys, p), order, mids), mids[|order|], p);
        SlotsElsewhere(w, mids[|order|], p, table);
      }
    case _ => SlotsElsewhere(w, w, p, table);
  }

  lemma CalledTasks(s: Sys, p: int, act: Act, table: int)
    requires Inv(s) && p in s.core.tasks && s.core.tasks[p].state.Running? && Dropped(s, table)
    ensures Dropped(Called(s, p, act), table) && !Called(s, p, act).core.tasks[p].state.Exited?
  {
    hide Inv, CoreOk, W.Inv, F.Inv, Attempt, WaitResult;
    Parts(s, p);
  }

  lemma ExecutedDropped(s: Sys, p: int, act: Act, table: int)
    requires Inv(s) && p in s.core.tasks && s.core.tasks[p].state.Running? && Enabled(s, p, act) && Dropped(s, table)
    ensures StaysDropped(s, Executed(s, p, act), table)
  {
    CalledFiles(s, p, act, table);
    CalledTasks(s, p, act, table);
    SettledTasks(Called(s, p, act), p, act, table);
    if act.ExitCall? { SameTable(s, p, act); }
    hide Inv, Called, Enabled, Last, Dropped, SameSlots, AnyRecord, Put;
  }

  lemma SettledTasks(s: Sys, p: int, act: Act, table: int)
    requires p in s.core.tasks && !s.core.tasks[p].state.Exited? && Dropped(s, table)
    ensures Dropped(Settled(s, p, act), table)
  {
    hide Last;
  }

  lemma SameTable(s: Sys, p: int, act: Act)
    requires p in s.core.tasks && act.ExitCall?
    ensures Called(s, p, act).core.tasks[p].table == s.core.tasks[p].table && Called(s, p, act).files == s.files
  {
  }

  lemma ResumedDropped(s: Sys, p: int, a: Answer, table: int)
    requires Inv(s) && p in s.core.tasks && s.core.tasks[p].state.Blocked? && Dropped(s, table)
             && Resumed(s, p, a).Some?
    ensures StaysDropped(s, Resumed(s, p, a).value, table)
  {
    hide Inv, CoreOk, W.Inv, F.Inv, Attempt, WaitResult, F.CanEnd, F.Left, SameSlots;
    Parts(s, p);
    var t := s.core.tasks[p];
    if t.waiting.None? && p !in s.futex.blocked && t.pipe.Some? {
      AttemptKeeps(s.files, (t.table, t.pipe.value.fd), t.pipe.value, a.stored);
    }
    SlotsElsewhere(s.files, Resumed(s, p, a).value.files, p, table);
  }

  lemma SteppedDropped(s: Sys, u: Turn, table: int)
    requires Inv(s) && Possible(s, u) && Dropped(s, table)
    ensures StaysDropped(s, Stepped(s, u), table)
  {
    hide Inv, Executed, Enabled, Resumed;
    var x := Woken(s, u.pid, u.answer);
    if x.Some? {
      if s.core.tasks[u.pid].state.Blocked? {
        ResumedKeeps(s, u.pid, u.answer);
        ResumedDropped(s, u.pid, u.answer, table);
      }
      DispatchedKeeps(x.value, u.pid);
      if u.signal.NoSignal? { ExecutedDropped(Dispatched(x.value, u.pid), u.pid, u.act, table); }
    }
  }

  /** A dropped table keeps its descriptors for the rest of every run. */
  lemma {:induction false} DroppedForever(ss: seq<Sys>, us: seq<Turn>, i: nat, j: nat, table: int)
    requires Run(ss, us) && i <= j < |ss| && Dropped(ss[i], table)
    ensures StaysDropped(ss[i], ss[j], table)
    decreases j - i
  {
    hide Inv, Initial, Possible, Stepped, Dropped;
    if i < j {
      DroppedForever(ss, us, i, j - 1, table);
      RunKeeps(ss, us, j - 1);
      assert Goes(ss[j - 1], us[j - 1], ss[j - 1 + 1]);
      SteppedDropped(ss[j - 1], us[j - 1], table);
    }
  }

  /** A write end in a dropped table: no read of the pipe ever returns end of file. */
  lemma NeverEnds(ss: seq<Sys>, us: seq<Turn>, i: nat, j: nat, k: W.Key)
    requires Run(ss, us) && i <= j < |ss| && Dropped(ss[i], k.0)
    requires k in ss[i].files.fds && ss[i].files.fds[k].PipeEnd? && ss[i].files.fds[k].end.write
    ensures var pipe := ss[i].files.fds[k].end.pipe;
            pipe in ss[j].files.pipes && forall n: nat :: !ReadOf(ss[j].files.pipes[pipe], false, n).EndOfFile?
  {
    DroppedForever(ss, us, i, j, k.0);
    RunKeeps(ss, us, j);
    hide W.Inv;
    W.SlotOpen(ss[j].files, k);
    W.OpenCounts(ss[j].files, ss[j].files.fds[k].end);
  }

  /** Killing a process whose table no other task uses drops its table as it is. */
  lemma KilledDrops(s: Sys, u: Turn)
    requires Inv(s) && u.pid in s.core.tasks && u.signal.Deadly?
    requires s.core.tasks[u.pid].state.Ready? || s.core.tasks[u.pid].state.Running?
    requires forall p :: p in s.core.tasks && p != u.pid && !s.core.tasks[p].state.Exited? ==>
             s.core.tasks[p].table != s.core.tasks[u.pid].table
    ensures Dropped(Stepped(s, u), s.core.tasks[u.pid].table) && Stepped(s, u).files == s.files
  {
  }

  /** Cloning a thread leaves a copy of every descriptor of its process in a dropped table. */
  lemma CloneDrops(s: Sys, p: int, act: Act, fd: int)
    requires Inv(s) && p in s.core.tasks && s.core.tasks[p].state.Running? && act.CloneCall? && Enabled(s, p, act)
    requires (s.core.tasks[p].table, fd) in s.files.fds
    ensures var x, k := Executed(s, p, act), (s.core.nextPid, fd);
            Dropped(x, s.core.nextPid) && k in x.files.fds
              && W.Alike(s.files.fds[(s.core.tasks[p].table, fd)], x.files.fds[k])
  {
    hide Inv, W.Inv, F.Inv, Since, Executed, Called, W.Step, W.Alike, W.Piped;
    Parts(s, p);
    ExecutedTouches(s, p, act);
    ForkCopies(s.files, W.Forks(s.core.tasks[p].table, s.core.nextPid, act.order, act.mids), act.mids[|act.order|], fd);
    ExecutedUsers(s, p, act);
    TablesNumbered(s);
    var x := Executed(s, p, act);
    forall q | q in x.core.tasks ensures x.core.tasks[q].table != s.core.nextPid {
      if q !in s.core.tasks { ExecutedNew(s, p, act, q); }
    }
  }

  lemma TablesNumbered(s: Sys)
    requires Inv(s)
    ensures forall q :: q in s.core.tasks ==> 0 < s.core.tasks[q].table < s.core.nextPid
  {
  }

  lemma ForkCopies(w: W.World, op: W.Op, x: W.World, fd: int)
    requires W.Step(w, op, x) && op.Forks? && (op.parent, fd) in w.fds
    ensures (op.child, fd) in x.fds && W.Alike(w.fds[(op.parent, fd)], x.fds[(op.child, fd)])
  {
    hide W.CopyAll, W.Alike;
    var k := (op.parent, fd);
    assert k in W.Members(op.order);
    assert op.order[..|op.order|] == op.order;
    forall j | j in op.order ensures j.0 != op.child { assert j in W.Members(op.order); }
    CopiesAll(op.order, op.child, op.mids, |op.order|, k);
  }

  lemma {:induction false} CopiesAll(order: seq<W.Key>, child: int, mids: seq<W.World>, i: nat, k: W.Key)
    requires W.CopyAll(order, child, mids) && i <= |order| && k in order[..i] && k.0 != child && k in mids[0].fds
    requires forall j :: j in order ==> j.0 != child
    ensures (child, k.1) in mids[i].fds && W.Alike(mids[0].fds[k], mids[i].fds[(child, k.1)])
  {
    CopyElsewhere(order, child, mids, i - 1);
    assert W.CopyOne(order[i - 1], child, mids[i - 1], mids[i - 1 + 1]);
    assert order[..i] == order[..i - 1] + [order[i - 1]];
    if k in order[..i - 1] { CopiesAll(order, child, mids, i - 1, k); }
  }

  // ---------------------------------------------------------------- which turns lose a table

  /** Nothing but the given task changes which table it uses or whether it has exited, and that one keeps
      its table. */
  ghost predicate SameUsers(c: Core, d: Core, p: int) {
    forall q :: q in c.tasks ==>
      q in d.tasks && d.tasks[q].table == c.tasks[q].table
        && (q != p ==> d.tasks[q].state.Exited? == c.tasks[q].state.Exited?)
  }

  lemma ResumedUsers(s: Sys, p: int, a: Answer)
    requires Inv(s) && p in s.core.tasks && s.core.tasks[p].state.Blocked? && Resumed(s, p, a).Some?
    ensures var x := Resumed(s, p, a).value;
            SameUsers(s.core, x.core, p) && x.core.nextPid == s.core.nextPid && x.files.fds == s.files.fds
            && x.core.tasks.Keys == s.core.tasks.Keys
  {
    hide Inv, CoreOk, W.Inv, F.Inv, Attempt, WaitResult, F.CanEnd, F.Left, StatusOf;
    Parts(s, p);
    var t := s.core.tasks[p];
    if t.waiting.None? && p !in s.futex.blocked && t.pipe.Some? {
      AttemptKeeps(s.files, (t.table, t.pipe.value.fd), t.pipe.value, a.stored);
    }
  }

  lemma CalledUsers(s: Sys, p: int, act: Act)
    requires Inv(s) && p in s.core.tasks && s.core.tasks[p].state.Running?
    ensures var x := Called(s, p, act);
            && SameUsers(s.core, x.core, p) && x.core.tasks[p].state.Running?
            && (!act.ForkCall? && !act.CloneCall? ==> x.core.tasks.Keys == s.core.tasks.Keys)
            && x.core.nextPid == s.core.nextPid + (if act.ForkCall? || act.CloneCall? then 1 else 0)
            && (act.ForkCall? ==>
                s.core.nextPid in x.core.tasks && x.core.tasks[s.core.nextPid] == Child(p, s.core.nextPid))
  {
    hide Inv, CoreOk, W.Inv, F.Inv, Attempt, WaitResult, StatusOf, FutexAfter, Last;
    Parts(s, p);
    assert s.core.nextPid !in s.core.tasks by { Fresh(s); }
  }

  lemma Fresh(s: Sys)
    requires Inv(s)
    ensures s.core.nextPid !in s.core.tasks
  {
  }

  lemma SettledUsers(s: Sys, p: int, act: Act)
    requires p in s.core.tasks && s.core.tasks[p].state.Running?
    ensures var x := Settled(s, p, act);
            && SameUsers(s.core, x.core, p) && x.core.nextPid == s.core.nextPid
              && x.core.tasks.Keys == s.core.tasks.Keys
            && (x.core.tasks[p].state.Exited? ==> act.ExitCall?)
            && (act.ExitCall? && !AnyRecord(s.core.tasks[p], p in s.core.futex) ==> x.core.tasks[p].state.Exited?)
  {
    hide Last;
  }

  lemma ExecutedUsers(s: Sys, p: int, act: Act)
    requires Inv(s) && p in s.core.tasks && s.core.tasks[p].state.Running?
    ensures var x := Executed(s, p, act);
            && SameUsers(s.core, x.core, p) && (x.core.tasks[p].state.Exited? <==> act.ExitCall?)
            && (!act.ForkCall? && !act.CloneCall? ==> x.core.tasks.Keys == s.core.tasks.Keys)
            && x.core.nextPid == s.core.nextPid + (if act.ForkCall? || act.CloneCall? then 1 else 0)
            && (act.ForkCall? ==> s.core.nextPid in x.core.tasks && x.core.tasks[s.core.nextPid].table == s.core.nextPid
                                  && !x.core.tasks[s.core.nextPid].state.Exited?)
  {
    hide Inv, Called, Settled, AnyRecord;
    CalledUsers(s, p, act);
    Fresh(s);
    if act.ExitCall? { ExitClear(s, p, act); }
    SettledUsers(Called(s, p, act), p, act);
  }

  lemma ExitClear(s: Sys, p: int, act: Act)
    requires Inv(s) && p in s.core.tasks && s.core.tasks[p].state.Running? && act.ExitCall?
    ensures var x := Called(s, p, act).core; !AnyRecord(x.tasks[p], p in x.futex)
  {
    Unblocked(s.core, p);
  }

  lemma UsersTransitive(c: Core, d: Core, e: Core, p: int)
    requires SameUsers(c, d, p) && SameUsers(d, e, p)
    ensures SameUsers(c, e, p)
  {
  }

  /** The state in which the task of a turn acts. */
  ghost function Acting(s: Sys, u: Turn): (x: Sys)
    requires u.pid in s.core.tasks && Woken(s, u.pid, u.answer).Some?
    ensures u.pid in x.core.tasks
  {
    Dispatched(Woken(s, u.pid, u.answer).value, u.pid)
  }

  lemma ActingKeeps(s: Sys, u: Turn)
    requires Inv(s) && u.pid in s.core.tasks && Woken(s, u.pid, u.answer).Some?
    ensures var x := Acting(s, u);
            && Inv(x) && x.core.tasks[u.pid].state.Running? && SameUsers(s.core, x.core, u.pid)
            && x.core.nextPid == s.core.nextPid && x.files.fds == s.files.fds && x.core.tasks.Keys == s.core.tasks.Keys
  {
    hide Inv, Resumed, Since;
    var y := Woken(s, u.pid, u.answer).value;
    if s.core.tasks[u.pid].state.Blocked? {
      ResumedKeeps(s, u.pid, u.answer);
      ResumedUsers(s, u.pid, u.answer);
    }
    DispatchedKeeps(y, u.pid);
    UsersTransitive(s.core, y.core, Acting(s, u).core, u.pid);
  }

  /** The turn forks, clones, or ends the task. */
  ghost predicate Forking(u: Turn) { u.signal.NoSignal? && u.act.ForkCall? }

  ghost predicate Cloning(u: Turn) { u.signal.NoSignal? && u.act.CloneCall? }

  ghost predicate Ending(u: Turn) { u.signal.Deadly? || (u.signal.NoSignal? && u.act.ExitCall?) }

  lemma ActedUsers(s: Sys, u: Turn)
    requires Inv(s) && u.pid in s.core.tasks && Woken(s, u.pid, u.answer).Some?
    ensures var t := Stepped(s, u);
            && SameUsers(s.core, t.core, u.pid) && u.pid in t.core.tasks
              && (t.core.tasks[u.pid].state.Exited? <==> Ending(u))
            && t.core.nextPid == s.core.nextPid + (if Forking(u) || Cloning(u) then 1 else 0)
            && (!Forking(u) && !Cloning(u) ==> t.core.tasks.Keys == s.core.tasks.Keys)
            && (Forking(u) ==> s.core.nextPid in t.core.tasks && t.core.tasks[s.core.nextPid].table == s.core.nextPid
                               && !t.core.tasks[s.core.nextPid].state.Exited?)
  {
    hide Inv, Executed, Woken;
    ActingKeeps(s, u);
    var x := Acting(s, u);
    if u.signal.NoSignal? { ExecutedUsers(x, u.pid, u.act); }
    UsersTransitive(s.core, x.core, Stepped(s, u).core, u.pid);
  }

  /** No other task that has not exited uses the table of `p`. */
  ghost predicate OnlyUser(s: Sys, p: int)
    requires p in s.core.tasks
  {
    forall q :: q in s.core.tasks && q != p && !s.core.tasks[q].state.Exited? ==>
      s.core.tasks[q].table != s.core.tasks[p].table
  }

  /** How a table comes to be dropped: it is the copy made for a new thread, or its last user ends. */
  lemma NewlyDropped(s: Sys, u: Turn, table: int)
    requires Inv(s) && Possible(s, u) && Dropped(Stepped(s, u), table) && !Dropped(s, table)
    ensures Woken(s, u.pid, u.answer).Some?
    ensures (Cloning(u) && table == s.core.nextPid)
            || (Ending(u) && table == s.core.tasks[u.pid].table && OnlyUser(s, u.pid))
  {
    hide Inv, Woken, Acted, Enabled;
    if Woken(s, u.pid, u.answer).Some? {
      ActedUsers(s, u);
      var t := Stepped(s, u);
      if table < s.core.nextPid {
        var p :| p in s.core.tasks && !s.core.tasks[p].state.Exited? && s.core.tasks[p].table == table;
        assert p in t.core.tasks && t.core.tasks[p].table == table;
        assert p == u.pid;
        forall q | q in s.core.tasks && q != p && !s.core.tasks[q].state.Exited?
          ensures s.core.tasks[q].table != table {
          assert q in t.core.tasks && !t.core.tasks[q].state.Exited?;
        }
      }
    }
  }

  // ---------------------------------------------------------------- the ends of a pipe that are lost

  /** A table refers to the given end of a pipe. */
  ghost predicate Holds(w: W.World, table: int, pipe: PipeBuffer, write: bool) {
    exists k :: k in w.fds && W.Leads(w.fds[k], pipe, write) && k.0 == table
  }

  /** Some dropped table does. */
  ghost predicate Lost(s: Sys, pipe: PipeBuffer, write: bool) {
    exists table :: Dropped(s, table) && Holds(s.files, table, pipe, write)
  }

  /** Some task that has not exited does. */
  ghost predicate Held(s: Sys, pipe: PipeBuffer, write: bool) {
    exists p :: p in s.core.tasks && !s.core.tasks[p].state.Exited?
      && Holds(s.files, s.core.tasks[p].table, pipe, write)
  }

  /** The task ends and its descriptors are not closed: a signal kills it, or it is a thread. */
  ghost predicate EndsOpen(s: Sys, u: Turn)
    requires u.pid in s.core.tasks
  {
    u.signal.Deadly? || (u.signal.NoSignal? && u.act.ExitCall? && s.core.tasks[u.pid].table != u.pid)
  }

  /** The turn loses the end of a pipe: the task, whose table holds the end, clones a thread, or it is the
      last to use that table and ends without closing it. */
  ghost predicate Loses(s: Sys, u: Turn, pipe: PipeBuffer, write: bool) {
    && u.pid in s.core.tasks && Woken(s, u.pid, u.answer).Some?
    && Holds(s.files, s.core.tasks[u.pid].table, pipe, write)
    && (Cloning(u) || (EndsOpen(s, u) && OnlyUser(s, u.pid)))
  }

  // ---------------------------------------------------------------- what those turns do to the tables

  /** A fork gives the child nothing but copies. */
  lemma {:induction false} CopiesFrom(order: seq<W.Key>, child: int, mids: seq<W.World>, i: nat, fd: int)
    requires W.CopyAll(order, child, mids) && i <= |order| && W.Unused(mids[0].fds, child) && (child, fd) in mids[i].fds
    requires forall j :: j in order ==> j.0 != child
    ensures exists j :: j in order && j.1 == fd && j in mids[0].fds && W.Alike(mids[0].fds[j], mids[i].fds[(child, fd)])
  {
    if i > 0 {
      var k := order[i - 1];
      assert k in order;
      assert W.CopyOne(k, child, mids[i - 1], mids[i - 1 + 1]);
      CopyElsewhere(order, child, mids, i - 1);
      if (child, fd) in mids[i - 1].fds {
        CopiesFrom(order, child, mids, i - 1, fd);
        var j :| j in order && j.1 == fd && j in mids[0].fds && W.Alike(mids[0].fds[j], mids[i - 1].fds[(child, fd)]);
        assert mids[i].fds[(child, fd)] == mids[i - 1].fds[(child, fd)];
      } else {
        assert k in mids[0].fds && mids[i - 1].fds[k] == mids[0].fds[k];
      }
    }
  }

  lemma ForkHolds(w: W.World, op: W.Op, x: W.World, pipe: PipeBuffer, write: bool)
    requires W.Step(w, op, x) && op.Forks?
    ensures Holds(x, op.child, pipe, write) <==> Holds(w, op.parent, pipe, write)
  {
    forall j | j in op.order ensures j.0 == op.parent { assert j in W.Members(op.order); }
    if Holds(w, op.parent, pipe, write) {
      var k :| k in w.fds && W.Leads(w.fds[k], pipe, write) && k.0 == op.parent;
      ForkCopies(w, op, x, k.1);
      var c := (op.child, k.1);
      assert c in x.fds && W.Leads(x.fds[c], pipe, write) && c.0 == op.child;
    }
    if Holds(x, op.child, pipe, write) {
      var k :| k in x.fds && W.Leads(x.fds[k], pipe, write) && k.0 == op.child;
      CopiesFrom(op.order, op.child, op.mids, |op.order|, k.1);
      var j :| j in op.order && j.1 == k.1 && j in w.fds && W.Alike(w.fds[j], x.fds[k]);
      assert W.Leads(w.fds[j], pipe, write);
    }
  }

  lemma {:induction false} ShedGone(order: seq<W.Key>, mids: seq<W.World>, i: nat, k: W.Key)
    requires W.ShedAll(order, mids) && i <= |order| && (k in order[..i] || k !in mids[0].fds)
    ensures k !in mids[i].fds
  {
    if i > 0 {
      assert W.Emptied(mids[i - 1], order[i - 1], mids[i - 1 + 1]);
      assert order[..i] == order[..i - 1] + [order[i - 1]];
      if k in order[..i - 1] || k !in mids[0].fds { ShedGone(order, mids, i - 1, k); }
    }
  }

  lemma ExitEmpties(w: W.World, p: int, order: seq<W.Key>, mids: seq<W.World>, x: W.World)
    requires W.Step(w, W.Sheds(W.Owned(w.fds.Keys, p), order, mids), x)
    ensures W.Unused(x.fds, p)
  {
    assert order[..|order|] == order;
    forall k | k in x.fds ensures k.0 != p {
      if k.0 == p {
        if k in w.fds { assert k in W.Members(order); }
        ShedGone(order, mids, |order|, k);
      }
    }
  }

  lemma ActedFiles(s: Sys, u: Turn)
    requires Inv(s) && Possible(s, u) && Woken(s, u.pid, u.answer).Some?
    ensures Cloning(u) ==>
            W.Step(Acting(s, u).files, W.Forks(s.core.tasks[u.pid].table, s.core.nextPid, u.act.order, u.act.mids),
                   Stepped(s, u).files)
    ensures EndsOpen(s, u) ==> Stepped(s, u).files == Acting(s, u).files
    ensures Ending(u) && !EndsOpen(s, u) ==>
            W.Unused(Stepped(s, u).files.fds, u.pid) && s.core.tasks[u.pid].table == u.pid
  {
    hide Inv, Woken, W.Step;
    ActingKeeps(s, u);
    var x := Acting(s, u);
    if Cloning(u) {
      SpawnKeeps(x, u.pid, u.act);
    } else if u.signal.NoSignal? && u.act.ExitCall? {
      ExitFiles(x, u.pid, u.act);
      if x.core.tasks[u.pid].table == u.pid {
        ExitEmpties(x.files, u.pid, u.act.order, u.act.mids, u.act.mids[|u.act.order|]);
      }
    }
  }

  lemma ExitFiles(s: Sys, p: int, act: Act)
    requires Inv(s) && p in s.core.tasks && s.core.tasks[p].state.Running? && act.ExitCall?
    ensures Executed(s, p, act).files == if s.core.tasks[p].table == p then Last(act.order, act.mids, s.files)
            else s.files
  {
    ExitClear(s, p, act);
    SameTable(s, p, act);
    hide Inv, Called, Last, AnyRecord;
  }

  /** The task ends, the last to use its table, and leaves its descriptors as they are in a dropped table. */
  lemma EndsOpenDrops(s: Sys, u: Turn)
    requires Inv(s) && Possible(s, u) && Woken(s, u.pid, u.answer).Some? && EndsOpen(s, u) && OnlyUser(s, u.pid)
    ensures Dropped(Stepped(s, u), s.core.tasks[u.pid].table) && Stepped(s, u).files.fds == s.files.fds
  {
    hide Inv, Woken, Acted;
    ActedFiles(s, u);
    ActingKeeps(s, u);
    ActedUsers(s, u);
    Parts(s, u.pid);
  }

  lemma HoldsSame(w: W.World, x: W.World, table: int, pipe: PipeBuffer, write: bool)
    requires SameSlots(w, x, table)
    ensures Holds(w, table, pipe, write) <==> Holds(x, table, pipe, write)
  {
    if Holds(w, table, pipe, write) {
      var k :| k in w.fds && W.Leads(w.fds[k], pipe, write) && k.0 == table;
      assert k in x.fds && x.fds[k] == w.fds[k];
    }
    if Holds(x, table, pipe, write) {
      var k :| k in x.fds && W.Leads(x.fds[k], pipe, write) && k.0 == table;
      assert k in w.fds && x.fds[k] == w.fds[k];
    }
  }

  /** A cloning turn drops a table that holds what its process holds. */
  lemma CloneLoses(s: Sys, u: Turn, pipe: PipeBuffer, write: bool)
    requires Inv(s) && Possible(s, u) && Woken(s, u.pid, u.answer).Some? && Cloning(u)
    ensures Holds(Stepped(s, u).files, s.core.nextPid, pipe, write)
            <==> Holds(s.files, s.core.tasks[u.pid].table, pipe, write)
    ensures Holds(s.files, s.core.tasks[u.pid].table, pipe, write) ==> Dropped(Stepped(s, u), s.core.nextPid)
  {
    hide Inv, Woken, W.Step, Dropped;
    ActingKeeps(s, u);
    ActedFiles(s, u);
    var x, table := Acting(s, u), s.core.tasks[u.pid].table;
    ForkHolds(x.files, W.Forks(table, s.core.nextPid, u.act.order, u.act.mids), Stepped(s, u).files, pipe, write);
    HoldsSame(s.files, x.files, table, pipe, write);
    if Holds(s.files, table, pipe, write) {
      var k :| k in s.files.fds && W.Leads(s.files.fds[k], pipe, write) && k.0 == table;
      assert (table, k.1) == k;
      CloneDrops(x, u.pid, u.act, k.1);
    }
  }

  /** After a turn an end of a pipe is lost exactly when it was before or the turn loses it. */
  lemma LostStep(s: Sys, u: Turn, pipe: PipeBuffer, write: bool)
    requires Inv(s) && Possible(s, u)
    ensures Lost(Stepped(s, u), pipe, write) <==> Lost(s, pipe, write) || Loses(s, u, pipe, write)
  {
    hide Inv, Woken, Enabled, Stepped, Dropped, Holds;
    if Lost(s, pipe, write) {
      var table :| Dropped(s, table) && Holds(s.files, table, pipe, write);
      SteppedDropped(s, u, table);
      HoldsSame(s.files, Stepped(s, u).files, table, pipe, write);
    } else if Loses(s, u, pipe, write) {
      LosesDrops(s, u, pipe, write);
    } else if Lost(Stepped(s, u), pipe, write) {
      var table :| Dropped(Stepped(s, u), table) && Holds(Stepped(s, u).files, table, pipe, write);
      LostBy(s, u, pipe, write, table);
    }
  }

  lemma LosesDrops(s: Sys, u: Turn, pipe: PipeBuffer, write: bool)
    requires Inv(s) && Possible(s, u) && Loses(s, u, pipe, write)
    ensures Lost(Stepped(s, u), pipe, write)
  {
    hide Inv, Woken, Stepped, Dropped, Holds;
    var table, t := s.core.tasks[u.pid].table, Stepped(s, u);
    if Cloning(u) {
      CloneLoses(s, u, pipe, write);
      assert Dropped(t, s.core.nextPid) && Holds(t.files, s.core.nextPid, pipe, write);
    } else {
      EndsOpenDrops(s, u);
      SlotsElsewhere(s.files, t.files, table, table);
      HoldsSame(s.files, t.files, table, pipe, write);
    }
  }

  lemma LostBy(s: Sys, u: Turn, pipe: PipeBuffer, write: bool, table: int)
    requires Inv(s) && Possible(s, u) && Dropped(Stepped(s, u), table) && Holds(Stepped(s, u).files, table, pipe, write)
    ensures Lost(s, pipe, write) || Loses(s, u, pipe, write)
  {
    hide Inv, Woken, Enabled, Stepped, Dropped;
    var t := Stepped(s, u);
    if Dropped(s, table) {
      SteppedDropped(s, u, table);
      HoldsSame(s.files, t.files, table, pipe, write);
    } else {
      NewlyDropped(s, u, table);
      if Cloning(u) && table == s.core.nextPid {
        CloneLoses(s, u, pipe, write);
      } else {
        ActedFiles(s, u);
        ActingKeeps(s, u);
        SlotsElsewhere(s.files, Acting(s, u).files, table, table);
        HoldsSame(s.files, Acting(s, u).files, table, pipe, write);
        assert EndsOpen(s, u);
      }
    }
  }

  /** The end was lost by one of the first `n` turns. */
  ghost predicate LostBefore(ss: seq<Sys>, us: seq<Turn>, n: nat, pipe: PipeBuffer, write: bool)
    requires n <= |us| && n <= |ss|
  {
    exists m :: 0 <= m < n && Loses(ss[m], us[m], pipe, write)
  }

  /** In every run, a dropped table holds an end of a pipe if and only if some earlier turn lost it. */
  lemma {:induction false} LostIff(ss: seq<Sys>, us: seq<Turn>, n: nat, pipe: PipeBuffer, write: bool)
    requires Run(ss, us) && n < |ss|
    ensures Lost(ss[n], pipe, write) <==> LostBefore(ss, us, n, pipe, write)
  {
    hide Inv, Possible, Stepped, Loses, Lost;
    if n == 0 { NothingLost(ss, us, pipe, write); } else {
      LostIff(ss, us, n - 1, pipe, write);
      RunKeeps(ss, us, n - 1);
      assert Goes(ss[n - 1], us[n - 1], ss[n - 1 + 1]);
      LostStep(ss[n - 1], us[n - 1], pipe, write);
      if LostBefore(ss, us, n - 1, pipe, write) {
        var m :| 0 <= m < n - 1 && Loses(ss[m], us[m], pipe, write);
        assert 0 <= m < n && Loses(ss[m], us[m], pipe, write);
      }
    }
  }

  lemma NothingLost(ss: seq<Sys>, us: seq<Turn>, pipe: PipeBuffer, write: bool)
    requires Run(ss, us)
    ensures !Lost(ss[0], pipe, write)
  {
  }

  /** In every state of every run the count of an end of a pipe is 0 if and only if no live task holds it
      and no earlier turn lost it. */
  lemma CountedUnlessLost(ss: seq<Sys>, us: seq<Turn>, n: nat, pipe: PipeBuffer, write: bool)
    requires Run(ss, us) && n < |ss| && pipe in ss[n].files.pipes
    ensures var b := ss[n].files.pipes[pipe];
            (if write then b.writers else b.readers) == 0
            <==> !Held(ss[n], pipe, write) && !LostBefore(ss, us, n, pipe, write)
  {
    hide Loses, Initial;
    LostIff(ss, us, n, pipe, write);
    RunKeeps(ss, us, n);
    NoHolderIff(ss[n], pipe, write);
  }

  lemma NoHolderIff(s: Sys, pipe: PipeBuffer, write: bool)
    requires Inv(s) && pipe in s.files.pipes
    ensures var b := s.files.pipes[pipe];
            (if write then b.writers else b.readers) == 0 <==> !Held(s, pipe, write) && !Lost(s, pipe, write)
  {
    assert W.Counted(s.files, pipe);
    HoldersIff(s.files, pipe, write);
    hide W.Holders, Holds, W.Inv;
    if Held(s, pipe, write) {
      var p :| p in s.core.tasks && !s.core.tasks[p].state.Exited?
        && Holds(s.files, s.core.tasks[p].table, pipe, write);
    } else if Somewhere(s.files, pipe, write) {
      var table :| Holds(s.files, table, pipe, write);
      HolderNumbered(s, table, pipe, write);
      assert Dropped(s, table);
    }
  }

  ghost predicate Somewhere(w: W.World, pipe: PipeBuffer, write: bool) {
    exists table :: Holds(w, table, pipe, write)
  }

  lemma HoldersIff(w: W.World, pipe: PipeBuffer, write: bool)
    ensures |W.Holders(w.fds, pipe, write)| == 0 <==> !Somewhere(w, pipe, write)
  {
    var keys := W.Holders(w.fds, pipe, write);
    if keys != {} {
      var k :| k in keys;
      assert Holds(w, k.0, pipe, write);
    }
    if Somewhere(w, pipe, write) { InHolders(w, pipe, write); }
  }

  lemma InHolders(w: W.World, pipe: PipeBuffer, write: bool)
    requires Somewhere(w, pipe, write)
    ensures W.Holders(w.fds, pipe, write) != {}
  {
    var table :| Holds(w, table, pipe, write);
    var k :| k in w.fds && W.Leads(w.fds[k], pipe, write) && k.0 == table;
    assert k in W.Holders(w.fds, pipe, write);
  }

  lemma HolderNumbered(s: Sys, table: int, pipe: PipeBuffer, write: bool)
    requires Inv(s) && Holds(s.files, table, pipe, write)
    ensures 0 < table < s.core.nextPid
  {
  }

  /** In every run, a drained pipe that no live task can write is at its end if and only if no turn lost its
      write end: no thread was cloned by a process that held it, and no last user of a table that held it
      was killed or was a thread. */
  lemma EndsUnlessLost(ss: seq<Sys>, us: seq<Turn>, n: nat, pipe: PipeBuffer)
    requires Run(ss, us) && n < |ss| && pipe in ss[n].files.pipes
    requires ss[n].files.pipes[pipe].data == [] && !Held(ss[n], pipe, true)
    ensures ss[n].files.pipes[pipe].AtEnd() <==> !LostBefore(ss, us, n, pipe, true)
  {
    CountedUnlessLost(ss, us, n, pipe, true);
  }

  /** In every run, a pipe that no live task can read is broken if and only if no turn lost its read end. */
  lemma BreaksUnlessLost(ss: seq<Sys>, us: seq<Turn>, n: nat, pipe: PipeBuffer)
    requires Run(ss, us) && n < |ss| && pipe in ss[n].files.pipes && !Held(ss[n], pipe, false)
    ensures ss[n].files.pipes[pipe].Broken() <==> !LostBefore(ss, us, n, pipe, false)
  {
    CountedUnlessLost(ss, us, n, pipe, false);
  }

  // ---------------------------------------------------------------- an end that no live task holds

  /** No slot appears or changes while descriptors are closed one by one. */
  lemma {:induction false} ShedFrom(order: seq<W.Key>, mids: seq<W.World>, i: nat)
    requires W.ShedAll(order, mids) && i <= |order|
    ensures forall k :: k in mids[i].fds ==> k in mids[0].fds && mids[i].fds[k] == mids[0].fds[k]
  {
    if i > 0 {
      ShedFrom(order, mids, i - 1);
      assert W.Emptied(mids[i - 1], order[i - 1], mids[i - 1 + 1]);
    }
  }

  /** A call on descriptors gives its table no end of an old pipe that the table did not hold. */
  lemma LocalFrom(w: W.World, op: W.Op, x: W.World, table: int, pipe: PipeBuffer, write: bool)
    requires W.Step(w, op, x) && Local(op, table) && pipe in w.pipes && Holds(x, table, pipe, write)
    ensures Holds(w, table, pipe, write)
  {
    var k :| k in x.fds && W.Leads(x.fds[k], pipe, write) && k.0 == table;
    if op.Sheds? {
      ShedFrom(op.order, op.mids, |op.order|);
      assert k in w.fds && w.fds[k] == x.fds[k];
    } else if op.Dups? && k == op.dst {
      assert op.from in w.fds && W.Leads(w.fds[op.from], pipe, write);
    } else {
      assert k in w.fds && w.fds[k] == x.fds[k];
    }
  }

  lemma HoldsElsewhere(w: W.World, x: W.World, changed: int, table: int, pipe: PipeBuffer, write: bool)
    requires Elsewhere(w, x, changed) && table != changed
    ensures Holds(x, table, pipe, write) <==> Holds(w, table, pipe, write)
  {
    SlotsElsewhere(w, x, changed, table);
    HoldsSame(w, x, table, pipe, write);
  }

  /** After an instruction a table holds an end of an old pipe only if it did before, or it is the copy of
      the table of the task, which did. */
  lemma ExecutedFrom(s: Sys, p: int, act: Act, table: int, pipe: PipeBuffer, write: bool)
    requires Inv(s) && p in s.core.tasks && s.core.tasks[p].state.Running? && Enabled(s, p, act)
             && pipe in s.files.pipes
    requires Holds(Executed(s, p, act).files, table, pipe, write)
    ensures Holds(s.files, table, pipe, write)
         || ((act.ForkCall? || act.CloneCall?) && table == s.core.nextPid
             && Holds(s.files, s.core.tasks[p].table, pipe, write))
  {
    hide Inv, W.Inv, W.Step, Attempt, Holds, Elsewhere, Executed, Called, Settled;
    Parts(s, p);
    ExecutedTouches(s, p, act);
    var t, w, x := s.core.tasks[p], s.files, Executed(s, p, act).files;
    match act
    case FileCall(op, after, _) =>
      LocalElsewhere(w, op, after, t.table);
      if table == t.table {
        LocalFrom(w, op, after, table, pipe, write);
      } else {
        HoldsElsewhere(w, after, t.table, table, pipe, write);
      }
    case TryPipe(call, stored) =>
      if Attempt(w, (t.table, call.fd), call, stored).Some? { AttemptKeeps(w, (t.table, call.fd), call, stored); }
      SlotsElsewhere(w, x, table, table);
      HoldsSame(w, x, table, pipe, write);
    case ForkCall(order, mids) => SpawnFrom(w, W.Forks(t.table, s.core.nextPid, order, mids), x, table, pipe, write);
    case CloneCall(_, order, mids) =>
      SpawnFrom(w, W.Forks(t.table, s.core.nextPid, order, mids), x, table, pipe, write);
    case ExitCall(_, order, mids) =>
      if t.table == p {
        var op := W.Sheds(W.Owned(w.fds.Keys, p), order, mids);
        LocalElsewhere(w, op, mids[|order|], p);
        if table == p { LocalFrom(w, op, x, p, pipe, write); } else { HoldsElsewhere(w, x, p, table, pipe, write); }
      }
    case _ =>
  }

  lemma SpawnFrom(w: W.World, op: W.Op, x: W.World, table: int, pipe: PipeBuffer, write: bool)
    requires W.Step(w, op, x) && op.Forks? && Holds(x, table, pipe, write)
    ensures Holds(w, table, pipe, write) || (table == op.child && Holds(w, op.parent, pipe, write))
  {
    hide W.Step, Holds, Elsewhere;
    ForkElsewhere(w, op, x);
    if table == op.child {
      ForkHolds(w, op, x, pipe, write);
    } else {
      HoldsElsewhere(w, x, op.child, table, pipe, write);
    }
  }

  /** The files after an instruction. */
  lemma ExecutedTouches(s: Sys, p: int, act: Act)
    requires Inv(s) && p in s.core.tasks && s.core.tasks[p].state.Running?
    ensures Executed(s, p, act).files ==
            if act.ExitCall? && s.core.tasks[p].table == p then Last(act.order, act.mids, s.files)
              else Touched(s, p, act)
  {
    if act.ExitCall? { ExitFiles(s, p, act); }
    CalledTouches(s, p, act);
    hide Inv, Called, Last, Touched, AnyRecord;
  }

  /** A new task uses a new table if it was forked, and its parent's if it was cloned. */
  lemma ExecutedNew(s: Sys, p: int, act: Act, q: int)
    requires Inv(s) && p in s.core.tasks && s.core.tasks[p].state.Running? && q in Executed(s, p, act).core.tasks
             && q !in s.core.tasks
    ensures (act.ForkCall? && Executed(s, p, act).core.tasks[q].table == s.core.nextPid)
         || (act.CloneCall? && Executed(s, p, act).core.tasks[q].table == s.core.tasks[p].table)
  {
    CalledUsers(s, p, act);
    SettledUsers(Called(s, p, act), p, act);
    hide Inv, Settled, WaitResult, Attempt;
  }

  lemma WokenLive(s: Sys, u: Turn)
    requires u.pid in s.core.tasks && Woken(s, u.pid, u.answer).Some?
    ensures !s.core.tasks[u.pid].state.Exited?
  {
  }

  lemma HeldBy(s: Sys, p: int, pipe: PipeBuffer, write: bool)
    requires p in s.core.tasks && !s.core.tasks[p].state.Exited? && Holds(s.files, s.core.tasks[p].table, pipe, write)
    ensures Held(s, pipe, write)
  {
  }

  /** An instruction makes no task hold an end of an old pipe that no live task held. */
  lemma ExecutedHeld(s: Sys, p: int, act: Act, pipe: PipeBuffer, write: bool)
    requires Inv(s) && p in s.core.tasks && s.core.tasks[p].state.Running? && Enabled(s, p, act)
             && pipe in s.files.pipes
    requires Held(Executed(s, p, act), pipe, write)
    ensures Held(s, pipe, write)
  {
    hide Inv, Enabled, Executed, Holds;
    var x := Executed(s, p, act);
    var q :| q in x.core.tasks && !x.core.tasks[q].state.Exited? && Holds(x.files, x.core.tasks[q].table, pipe, write);
    ExecutedFrom(s, p, act, x.core.tasks[q].table, pipe, write);
    ExecutedUsers(s, p, act);
    if Holds(s.files, s.core.tasks[p].table, pipe, write) {
      HeldBy(s, p, pipe, write);
    } else if q in s.core.tasks {
      HeldBy(s, q, pipe, write);
    } else {
      ExecutedNew(s, p, act, q);
      Unnumbered(s, pipe, write);
    }
  }

  lemma Unnumbered(s: Sys, pipe: PipeBuffer, write: bool)
    requires Inv(s)
    ensures !Holds(s.files, s.core.nextPid, pipe, write)
  {
  }

  // ---------------------------------------------------------------- the bytes of a pipe

  /** Without its read end a table takes no byte out of a pipe, and without its write end it puts none
      in. */
  ghost predicate Moves(v: W.World, w: W.World, pipe: PipeBuffer, taking: bool, putting: bool)
    requires pipe in v.pipes
  {
    && pipe in w.pipes
    && (!taking ==> |v.pipes[pipe].data| <= |w.pipes[pipe].data|)
    && (!putting ==> |w.pipes[pipe].data| <= |v.pipes[pipe].data|)
  }

  lemma AttemptMoves(w: W.World, k: W.Key, c: PipeCall, stored: bool, pipe: PipeBuffer)
    requires W.Inv(w) && pipe in w.pipes && Attempt(w, k, c, stored).Some?
    ensures Moves(w, Attempt(w, k, c, stored).value.files, pipe, Holds(w, k.0, pipe, false), Holds(w, k.0, pipe, true))
  {
    if W.Piped(w, k) && w.fds[k].end.pipe == pipe {
      var h := w.fds[k].end;
      assert W.Leads(w.fds[k], pipe, h.write);
      assert Holds(w, k.0, pipe, h.write);
      hide W.Inv, Holds;
      ReadMoves(w.pipes[pipe], h.write, Capped(c.count));
      WriteMoves(w.pipes[pipe], h.write, c.data);
    }
  }

  lemma ReadMoves(p: Pipe, write: bool, n: nat)
    ensures |AfterRead(p, ReadOf(p, write, n)).data| <= |p.data| && (write ==> AfterRead(p, ReadOf(p, write, n)) == p)
  {
  }

  lemma WriteMoves(p: Pipe, write: bool, src: seq<u8>)
    ensures |p.data| <= |AfterWrite(p, src, WriteOf(p, write, src)).data|
            && (!write ==> AfterWrite(p, src, WriteOf(p, write, src)) == p)
  {
  }

  lemma StepMoves(w: W.World, op: W.Op, x: W.World, pipe: PipeBuffer, taking: bool, putting: bool)
    requires W.Inv(w) && W.Step(w, op, x) && !op.Reads? && !op.Writes? && pipe in w.pipes
    ensures Moves(w, x, pipe, taking, putting)
  {
    hide W.Inv, W.Step;
    W.StepKeeps(w, op, x);
  }

  lemma ExecutedMoves(s: Sys, p: int, act: Act, pipe: PipeBuffer)
    requires Inv(s) && p in s.core.tasks && s.core.tasks[p].state.Running? && Enabled(s, p, act)
             && pipe in s.files.pipes
    ensures var table := s.core.tasks[p].table;
            Moves(s.files, Executed(s, p, act).files, pipe, Holds(s.files, table, pipe, false),
                  Holds(s.files, table, pipe, true))
  {
    hide Inv, W.Inv, W.Step, Attempt, Holds, Executed, Called, Settled;
    Parts(s, p);
    ExecutedTouches(s, p, act);
    var t, w, x := s.core.tasks[p], s.files, Executed(s, p, act).files;
    var taking, putting := Holds(w, t.table, pipe, false), Holds(w, t.table, pipe, true);
    match act
    case FileCall(op, after, _) => StepMoves(w, op, after, pipe, taking, putting);
    case TryPipe(call, stored) =>
      if Attempt(w, (t.table, call.fd), call, stored).Some? { AttemptMoves(w, (t.table, call.fd), call, stored, pipe); }
    case ForkCall(order, mids) => StepMoves(w, W.Forks(t.table, s.core.nextPid, order, mids), x, pipe, taking, putting);
    case CloneCall(_, order, mids) =>
      StepMoves(w, W.Forks(t.table, s.core.nextPid, order, mids), x, pipe, taking, putting);
    case ExitCall(_, order, mids) =>
      if t.table == p { StepMoves(w, W.Sheds(W.Owned(w.fds.Keys, p), order, mids), x, pipe, taking, putting); }
    case _ =>
  }

  lemma ActingMoves(s: Sys, u: Turn, pipe: PipeBuffer)
    requires Inv(s) && u.pid in s.core.tasks && Woken(s, u.pid, u.answer).Some? && pipe in s.files.pipes
    ensures var table := s.core.tasks[u.pid].table;
            Moves(s.files, Acting(s, u).files, pipe, Holds(s.files, table, pipe, false),
                  Holds(s.files, table, pipe, true))
  {
    hide Inv, CoreOk, W.Inv, F.Inv, Attempt, WaitResult, WaitTasks, F.CanEnd, F.Left, Holds;
    Parts(s, u.pid);
    var t := s.core.tasks[u.pid];
    if t.state.Blocked? && t.waiting.None? && u.pid !in s.futex.blocked && t.pipe.Some? {
      AttemptMoves(s.files, (t.table, t.pipe.value.fd), t.pipe.value, u.answer.stored, pipe);
    }
  }

  /** A turn takes bytes out of a pipe only if some live task holds its read end, and puts bytes in only if
      one holds its write end; and once no live task holds an end, none does again. */
  lemma TurnMoves(s: Sys, u: Turn, pipe: PipeBuffer)
    requires Inv(s) && Possible(s, u) && pipe in s.files.pipes
    ensures Moves(s.files, Stepped(s, u).files, pipe, Held(s, pipe, false), Held(s, pipe, true))
    ensures Held(Stepped(s, u), pipe, false) ==> Held(s, pipe, false)
    ensures Held(Stepped(s, u), pipe, true) ==> Held(s, pipe, true)
  {
    hide Inv, Woken, Enabled, Executed, Holds, Held, Dispatched;
    if Woken(s, u.pid, u.answer).Some? {
      ActingKeeps(s, u);
      ActingMoves(s, u, pipe);
      WokenLive(s, u);
      HeldActing(s, u, pipe, false);
      HeldActing(s, u, pipe, true);
      var x := Acting(s, u);
      if u.signal.NoSignal? {
        ExecutedMoves(x, u.pid, u.act, pipe);
        if Held(Stepped(s, u), pipe, false) { ExecutedHeld(x, u.pid, u.act, pipe, false); }
        if Held(Stepped(s, u), pipe, true) { ExecutedHeld(x, u.pid, u.act, pipe, true); }
      } else {
        SignalHeld(x, u, pipe, false);
        SignalHeld(x, u, pipe, true);
      }
    }
  }

  lemma HeldActing(s: Sys, u: Turn, pipe: PipeBuffer, write: bool)
    requires Inv(s) && u.pid in s.core.tasks && Woken(s, u.pid, u.answer).Some?
    ensures Held(Acting(s, u), pipe, write) ==> Held(s, pipe, write)
    ensures Holds(s.files, s.core.tasks[u.pid].table, pipe, write) ==> Held(s, pipe, write)
    ensures Holds(Acting(s, u).files, Acting(s, u).core.tasks[u.pid].table, pipe, write) ==> Held(s, pipe, write)
  {
    hide Inv, Woken;
    ActingKeeps(s, u);
    WokenLive(s, u);
    var x := Acting(s, u);
    forall table ensures Holds(x.files, table, pipe, write) <==> Holds(s.files, table, pipe, write) {
      SlotsElsewhere(s.files, x.files, table, table);
      HoldsSame(s.files, x.files, table, pipe, write);
    }
    hide Holds, Acting;
    if Holds(s.files, s.core.tasks[u.pid].table, pipe, write) { HeldBy(s, u.pid, pipe, write); }
    if Held(x, pipe, write) {
      var q :| q in x.core.tasks && !x.core.tasks[q].state.Exited?
        && Holds(x.files, x.core.tasks[q].table, pipe, write);
      HeldBy(s, q, pipe, write);
    }
  }

  lemma SignalHeld(x: Sys, u: Turn, pipe: PipeBuffer, write: bool)
    requires u.pid in x.core.tasks && x.core.tasks[u.pid].state.Running?
    ensures var t := x.(core := Put(x.core, u.pid, Signalled(x.core.tasks[u.pid], u.signal), [],
                                    u.pid in x.core.futex));
            Held(t, pipe, write) ==> Held(x, pipe, write)
  {
  }

  // ---------------------------------------------------------------- over every run

  /** From some state on no live task holds an end of the pipe: then none ever does again, and with it goes
      one direction in which bytes move. */
  lemma {:induction false} HeldNever(ss: seq<Sys>, us: seq<Turn>, i: nat, j: nat, pipe: PipeBuffer, write: bool)
    requires Run(ss, us) && i <= j < |ss| && pipe in ss[i].files.pipes && !Held(ss[i], pipe, write)
    ensures pipe in ss[j].files.pipes && !Held(ss[j], pipe, write)
    ensures var d, e := ss[i].files.pipes[pipe].data, ss[j].files.pipes[pipe].data;
            if write then |e| <= |d| else |d| <= |e|
    decreases j - i
  {
    hide Inv, Initial, Possible, Stepped, Held;
    if i < j {
      HeldNever(ss, us, i, j - 1, pipe, write);
      RunKeeps(ss, us, j - 1);
      assert Goes(ss[j - 1], us[j - 1], ss[j - 1 + 1]);
      TurnMoves(ss[j - 1], us[j - 1], pipe);
    }
  }

  lemma LostStays(ss: seq<Sys>, us: seq<Turn>, i: nat, j: nat, pipe: PipeBuffer, write: bool)
    requires Run(ss, us) && i <= j < |ss| && LostBefore(ss, us, i, pipe, write)
    ensures LostBefore(ss, us, j, pipe, write)
  {
    hide Loses, Initial;
    var m :| 0 <= m < i && Loses(ss[m], us[m], pipe, write);
  }

  /** Once its read end is lost and no live task holds it, a full pipe stays full, and in every later state
      of the run every write to it is stuck: EPIPE never comes. */
  lemma WritesStuckForever(ss: seq<Sys>, us: seq<Turn>, i: nat, j: nat, pipe: PipeBuffer, k: W.Key, c: PipeCall)
    requires Run(ss, us) && i <= j < |ss| && pipe in ss[i].files.pipes && |ss[i].files.pipes[pipe].data| == CAPACITY
    requires LostBefore(ss, us, i, pipe, false) && !Held(ss[i], pipe, false)
    requires k in ss[j].files.fds && W.Leads(ss[j].files.fds[k], pipe, true) && c.write && c.data != []
    ensures StuckPipe(ss[j].files, k, c)
  {
    hide Loses, Initial, Held;
    HeldNever(ss, us, i, j, pipe, false);
    LostStays(ss, us, i, j, pipe, false);
    CountedUnlessLost(ss, us, j, pipe, false);
    RunKeeps(ss, us, j);
    W.WithinCapacity(ss[j].files, pipe);
  }

  /** Once its write end is lost and no live task holds it, a drained pipe stays empty, and in every later
      state of the run every read of it is stuck: end of file never comes. */
  lemma ReadsStuckForever(ss: seq<Sys>, us: seq<Turn>, i: nat, j: nat, pipe: PipeBuffer, k: W.Key, c: PipeCall)
    requires Run(ss, us) && i <= j < |ss| && pipe in ss[i].files.pipes && ss[i].files.pipes[pipe].data == []
    requires LostBefore(ss, us, i, pipe, true) && !Held(ss[i], pipe, true)
    requires k in ss[j].files.fds && W.Leads(ss[j].files.fds[k], pipe, false) && !c.write && c.count > 0
    ensures StuckPipe(ss[j].files, k, c)
  {
    hide Loses, Initial, Held;
    HeldNever(ss, us, i, j, pipe, true);
    LostStays(ss, us, i, j, pipe, true);
    CountedUnlessLost(ss, us, j, pipe, true);
    RunKeeps(ss, us, j);
  }

  /** The failure is reached: a process makes a pipe and is killed; nobody is left to write, the pipe is
      empty, and yet it is not at its end. */
  lemma KilledReaches(root: int, reader: PipeHandle, writer: PipeHandle) returns (ss: seq<Sys>, us: seq<Turn>)
    requires root > 0 && reader.pipe == writer.pipe && !reader.write && writer.write
    ensures Run(ss, us) && |us| == 2 && writer.pipe in ss[2].files.pipes && LostBefore(ss, us, 2, writer.pipe, true)
    ensures ss[2].files.pipes[writer.pipe].data == [] && !Held(ss[2], writer.pipe, true)
            && !ss[2].files.pipes[writer.pipe].AtEnd()
  {
    var none, r, w := W.World(map[], {}, map[]), (root, 0), (root, 1);
    var made := W.Created(none, r, w, writer.pipe, reader, writer);
    var a := Answer(true, true);
    var u, v := Turn(root, a, NoSignal, FileCall(W.Makes(r, w), made, 0)), Turn(root, a, Deadly(9), Plain(0));
    var s := Initial(root);
    assert W.PipeMade(none, r, w, made);
    assert Possible(s, u);
    var t := Stepped(s, u);
    assert t.files == made && t.core.tasks.Keys == {root} && t.core.tasks[root].state.Running?
           && t.core.tasks[root].table == root;
    assert made.fds[w] == W.PipeEnd(writer);
    assert Holds(t.files, root, writer.pipe, true);
    var x := Stepped(t, v);
    assert x.files == made && x.core.tasks.Keys == {root} && x.core.tasks[root].state.Exited?;
    ss, us := [s, t, x], [u, v];
    assert Goes(s, u, t) && Goes(t, v, x);
    assert ss[0] == Initial(root);
    assert Loses(ss[1], us[1], writer.pipe, true);
  }
}
