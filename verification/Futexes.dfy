/** Futexes: the wait queues shared by all processes, and the blocked waits of scheduled tasks. */
module Futexes {
  import opened Words
  import opened Errno
  import opened Bytes
  import opened AddressSpaces
  import opened GuestWords

  const FUTEX_PRIVATE: nat := 128

  /** A waiter is the identity of the channel a task waits on. */
  type Waiter = nat

  /** A wait that has not returned; a wait may have a deadline. */
  datatype Block = Block(uaddr: u32, waiter: Waiter, deadline: bool)

  type Queues = map<u32, seq<Waiter>>

  function QueueAt(q: Queues, a: u32): seq<Waiter> { if a in q then q[a] else [] }

  function WithQueue(q: Queues, a: u32, ws: seq<Waiter>): Queues {
    if ws == [] then q - {a} else q[a := ws]
  }

  lemma QueueAfter(q: Queues, a: u32, ws: seq<Waiter>, b: u32)
    ensures QueueAt(WithQueue(q, a, ws), b) == if b == a then ws else QueueAt(q, b)
  {
  }

  lemma QueuesAfter(q: Queues, a: u32, ws: seq<Waiter>)
    ensures forall b :: QueueAt(WithQueue(q, a, ws), b) == if b == a then ws else QueueAt(q, b)
  {
    forall b ensures QueueAt(WithQueue(q, a, ws), b) == if b == a then ws else QueueAt(q, b) {
      QueueAfter(q, a, ws, b);
    }
  }

  // ---------------------------------------------------------------- the invariant

  /** In order of arrival: waiters are numbered as they come. */
  predicate InOrder(ws: seq<Waiter>) {
    forall i, j :: 0 <= i < j < |ws| ==> ws[i] < ws[j]
  }

  /** Every queued waiter is unreleased and queued once, and every queue is in order of arrival. */
  ghost predicate Queued(q: Queues, closed: set<Waiter>, next: nat) {
    && (forall a, w :: w in QueueAt(q, a) ==> w < next)
    && (forall a, w :: w in QueueAt(q, a) ==> w !in closed)
    && (forall a, b, w :: w in QueueAt(q, a) && w in QueueAt(q, b) ==> a == b)
    && (forall a :: InOrder(QueueAt(q, a)))
    && (forall w :: w in closed ==> w < next)
    && (forall a :: a in q ==> q[a] != [])
  }

  ghost predicate Owner(blocked: map<int, Block>, p: int, a: u32, w: Waiter) {
    p in blocked && blocked[p].uaddr == a && blocked[p].waiter == w
  }

  ghost predicate Waits(q: Queues, closed: set<Waiter>, next: nat, b: Block) {
    b.waiter < next && (b.waiter !in closed ==> b.waiter in QueueAt(q, b.uaddr))
  }

  /** The waiters of blocked tasks are those that are queued and those that were released. */
  ghost predicate Matched(q: Queues, closed: set<Waiter>, next: nat, blocked: map<int, Block>) {
    && (forall p :: p in blocked ==> Waits(q, closed, next, blocked[p]))
    && (forall p, r :: p in blocked && r in blocked && blocked[p].waiter == blocked[r].waiter ==> p == r)
    && (forall a, w :: w in QueueAt(q, a) ==> exists p :: Owner(blocked, p, a, w))
  }

  // ---------------------------------------------------------------- steps on queues

  /** A new waiter at the end of its queue. */
  lemma EnqueueQueued(q: Queues, closed: set<Waiter>, next: nat, a: u32)
    requires Queued(q, closed, next)
    ensures Queued(WithQueue(q, a, QueueAt(q, a) + [next]), closed, next + 1)
  {
    var ws := QueueAt(q, a);
    QueuesAfter(q, a, ws + [next]);
    var x := WithQueue(q, a, ws + [next]);
    assert forall b :: b in x ==> x[b] != [];
    hide QueueAt, WithQueue;
    assert InOrder(ws) && forall i :: 0 <= i < |ws| ==> ws[i] in ws;
    assert InOrder(ws + [next]);
    assert next !in ws;
  }

  lemma EnqueueMatched(q: Queues, closed: set<Waiter>, next: nat, blocked: map<int, Block>, pid: int, b: Block)
    requires Queued(q, closed, next) && Matched(q, closed, next, blocked) && pid !in blocked && b.waiter == next
    ensures Matched(WithQueue(q, b.uaddr, QueueAt(q, b.uaddr) + [next]), closed, next + 1, blocked[pid := b])
  {
    var x, after := WithQueue(q, b.uaddr, QueueAt(q, b.uaddr) + [next]), blocked[pid := b];
    QueuesAfter(q, b.uaddr, QueueAt(q, b.uaddr) + [next]);
    hide QueueAt, WithQueue;
    forall p | p in after ensures Waits(x, closed, next + 1, after[p]) {
      if p in blocked { assert Waits(q, closed, next, blocked[p]); }
    }
    forall a, w | w in QueueAt(x, a) ensures exists p :: Owner(after, p, a, w) {
      if w == next && a == b.uaddr { assert Owner(after, pid, a, w); } else {
        assert w in QueueAt(q, a);
        var p :| Owner(blocked, p, a, w);
        assert Owner(after, p, a, w);
      }
    }
  }

  function Members(ws: seq<Waiter>): set<Waiter> { set w | w in ws }

  /** The oldest `n` waiters released. */
  lemma WakeQueued(q: Queues, closed: set<Waiter>, next: nat, a: u32, n: nat)
    requires Queued(q, closed, next) && n <= |QueueAt(q, a)|
    ensures Queued(WithQueue(q, a, QueueAt(q, a)[n..]), closed + Members(QueueAt(q, a)[..n]), next)
  {
    var ws := QueueAt(q, a);
    QueuesAfter(q, a, ws[n..]);
    hide QueueAt, WithQueue;
    assert InOrder(ws);
    forall w | w in ws[n..] ensures w in ws && w !in ws[..n] {
      var i :| 0 <= i < |ws[n..]| && ws[n..][i] == w;
      assert ws[n + i] == w;
    }
    assert forall w :: w in ws[..n] ==> w in ws;
    assert InOrder(ws[n..]);
  }

  lemma WakeMatched(q: Queues, closed: set<Waiter>, next: nat, blocked: map<int, Block>, a: u32, n: nat)
    requires Matched(q, closed, next, blocked) && n <= |QueueAt(q, a)|
    ensures Matched(WithQueue(q, a, QueueAt(q, a)[n..]), closed + Members(QueueAt(q, a)[..n]), next, blocked)
  {
    var ws := QueueAt(q, a);
    var x, released := WithQueue(q, a, ws[n..]), closed + Members(ws[..n]);
    QueuesAfter(q, a, ws[n..]);
    hide QueueAt, WithQueue;
    assert ws == ws[..n] + ws[n..];
    forall p | p in blocked ensures Waits(x, released, next, blocked[p]) {
      assert Waits(q, closed, next, blocked[p]);
    }
    forall b, w | w in QueueAt(x, b) ensures exists p :: Owner(blocked, p, b, w) {
      assert w in QueueAt(q, b);
    }
  }

  /** The queue without a waiter. */
  function Without(ws: seq<Waiter>, w: Waiter): seq<Waiter> {
    if ws == [] then [] else if ws[0] == w then ws[1..] else [ws[0]] + Without(ws[1..], w)
  }

  lemma {:induction false} WithoutAt(ws: seq<Waiter>, i: nat)
    requires i < |ws| && ws[i] !in ws[..i]
    ensures Without(ws, ws[i]) == ws[..i] + ws[i + 1..]
  {
    if i > 0 {
      assert ws[0] in ws[..i];
      assert ws[1..][i - 1] == ws[i] && ws[1..][..i - 1] == ws[1..i] && ws[1..][i..] == ws[i + 1..];
      assert ws[..i] == [ws[0]] + ws[1..i];
      WithoutAt(ws[1..], i - 1);
    }
  }

  lemma {:induction false} WithoutAbsent(ws: seq<Waiter>, w: Waiter)
    requires w !in ws
    ensures Without(ws, w) == ws
  {
    if ws != [] { WithoutAbsent(ws[1..], w); }
  }

  lemma HeadFirst(ws: seq<Waiter>)
    requires ws != [] && InOrder(ws)
    ensures InOrder(ws[1..]) && forall x :: x in ws[1..] ==> ws[0] < x
    ensures forall x :: x in ws <==> x == ws[0] || x in ws[1..]
  {
    assert ws == [ws[0]] + ws[1..];
  }

  lemma ConsInOrder(x: Waiter, rest: seq<Waiter>)
    requires InOrder(rest) && forall y :: y in rest ==> x < y
    ensures InOrder([x] + rest) && forall y :: y in [x] + rest <==> y == x || y in rest
  {
    assert forall i :: 0 <= i < |rest| ==> rest[i] in rest;
  }

  lemma {:induction false} WithoutMembers(ws: seq<Waiter>, w: Waiter)
    requires InOrder(ws)
    ensures InOrder(Without(ws, w)) && forall x :: x in Without(ws, w) <==> x in ws && x != w
  {
    if ws != [] {
      hide InOrder;
      HeadFirst(ws);
      if ws[0] != w {
        WithoutMembers(ws[1..], w);
        ConsInOrder(ws[0], Without(ws[1..], w));
      }
    }
  }

  /** A task leaves its wait. */
  lemma LeaveKeeps(q: Queues, closed: set<Waiter>, next: nat, blocked: map<int, Block>, pid: int)
    requires Queued(q, closed, next) && Matched(q, closed, next, blocked) && pid in blocked
    ensures var b := blocked[pid];
            var x := WithQueue(q, b.uaddr, Without(QueueAt(q, b.uaddr), b.waiter));
            Queued(x, closed, next) && Matched(x, closed, next, blocked - {pid})
  {
    var b, rest := blocked[pid], blocked - {pid};
    var ws := QueueAt(q, b.uaddr);
    var x := WithQueue(q, b.uaddr, Without(ws, b.waiter));
    QueuesAfter(q, b.uaddr, Without(ws, b.waiter));
    assert forall a :: a in x ==> x[a] != [];
    hide QueueAt, WithQueue;
    assert InOrder(ws);
    WithoutMembers(ws, b.waiter);
    forall p | p in rest ensures Waits(x, closed, next, rest[p]) {
      assert Waits(q, closed, next, blocked[p]);
    }
    forall a, w | w in QueueAt(x, a) ensures exists p :: Owner(rest, p, a, w) {
      assert w in QueueAt(q, a);
      var p :| Owner(blocked, p, a, w);
      assert Waits(q, closed, next, b);
      assert p != pid;
      assert Owner(rest, p, a, w);
    }
  }

  // ---------------------------------------------------------------- the table as a value

  /** The wait queues, the released waiters, the next waiter's number, and the blocked tasks. */
  datatype Snapshot = Snapshot(queues: Queues, closed: set<Waiter>, next: nat, blocked: map<int, Block>)

  ghost predicate Inv(s: Snapshot) {
    Queued(s.queues, s.closed, s.next) && Matched(s.queues, s.closed, s.next, s.blocked)
  }

  /** A task starts waiting, last in its queue. */
  function Waited(s: Snapshot, pid: int, uaddr: u32, deadline: bool): Snapshot {
    Snapshot(WithQueue(s.queues, uaddr, QueueAt(s.queues, uaddr) + [s.next]), s.closed, s.next + 1,
             s.blocked[pid := Block(uaddr, s.next, deadline)])
  }

  /** How many waiters a wake releases. */
  function WakeCount(s: Snapshot, a: u32, value: u32): nat {
    if value < |QueueAt(s.queues, a)| then value else |QueueAt(s.queues, a)|
  }

  /** The oldest waiters are released. */
  function Woken(s: Snapshot, a: u32, value: u32): Snapshot {
    var ws, n := QueueAt(s.queues, a), WakeCount(s, a, value);
    s.(queues := WithQueue(s.queues, a, ws[n..]), closed := s.closed + Members(ws[..n]))
  }

  /** A wake of `value` waiters takes the oldest ones from the front of the queue and releases them: at most
      `value`, and fewer only when none is left. */
  ghost predicate Wakes(s: Snapshot, a: u32, value: u32, n: nat, t: Snapshot) {
    && n <= value && n <= |QueueAt(s.queues, a)| && (n < value ==> QueueAt(t.queues, a) == [])
    && QueueAt(t.queues, a) == QueueAt(s.queues, a)[n..]
    && (forall w :: w in t.closed <==> w in s.closed || w in QueueAt(s.queues, a)[..n])
    && (forall b :: b != a ==> QueueAt(t.queues, b) == QueueAt(s.queues, b))
    && t.next == s.next && t.blocked == s.blocked
  }

  lemma WokenWakes(s: Snapshot, a: u32, value: u32)
    ensures Wakes(s, a, value, WakeCount(s, a, value), Woken(s, a, value))
  {
    QueuesAfter(s.queues, a, QueueAt(s.queues, a)[WakeCount(s, a, value)..]);
    hide QueueAt, WithQueue;
  }

  /** A task's wait can end: its deadline has passed or it was released. */
  predicate CanEnd(s: Snapshot, pid: int, expired: bool) {
    pid in s.blocked && ((s.blocked[pid].deadline && expired) || s.blocked[pid].waiter in s.closed)
  }

  /** A task leaves its wait. */
  function Left(s: Snapshot, pid: int): Snapshot
    requires pid in s.blocked
  {
    var b := s.blocked[pid];
    s.(queues := WithQueue(s.queues, b.uaddr, Without(QueueAt(s.queues, b.uaddr), b.waiter)),
       blocked := s.blocked - {pid})
  }

  datatype Event = Waiting(pid: int, uaddr: u32, deadline: bool) | Waking(at: u32, count: u32)
    | Resuming(who: int, expired: bool) | Refusing | Idle

  ghost predicate Step(s: Snapshot, e: Event, t: Snapshot) {
    match e
    case Waiting(pid, uaddr, deadline) => pid !in s.blocked && t == Waited(s, pid, uaddr, deadline)
    case Waking(a, value) => t == Woken(s, a, value)
    case Resuming(pid, expired) => t == if CanEnd(s, pid, expired) then Left(s, pid) else s
    case Refusing => t == s.(next := s.next + 1)
    case Idle => t == s
  }

  lemma NextGrows(s: Snapshot)
    requires Inv(s)
    ensures Inv(s.(next := s.next + 1))
  {
    hide QueueAt;
    forall p | p in s.blocked ensures Waits(s.queues, s.closed, s.next + 1, s.blocked[p]) {
      assert Waits(s.queues, s.closed, s.next, s.blocked[p]);
    }
  }

  /** Every operation keeps every queued waiter unreleased and queued once, in order of arrival, and every
      blocked task either queued or released. */
  lemma StepKeeps(s: Snapshot, e: Event, t: Snapshot)
    requires Inv(s) && Step(s, e, t)
    ensures Inv(t)
  {
    hide Queued, Matched, QueueAt, WithQueue;
    match e
    case Waiting(pid, uaddr, deadline) =>
      EnqueueQueued(s.queues, s.closed, s.next, uaddr);
      EnqueueMatched(s.queues, s.closed, s.next, s.blocked, pid, Block(uaddr, s.next, deadline));
    case Waking(a, value) =>
      WakeQueued(s.queues, s.closed, s.next, a, WakeCount(s, a, value));
      WakeMatched(s.queues, s.closed, s.next, s.blocked, a, WakeCount(s, a, value));
    case Resuming(pid, expired) =>
      if CanEnd(s, pid, expired) { LeaveKeeps(s.queues, s.closed, s.next, s.blocked, pid); }
    case Refusing => NextGrows(s);
    case Idle =>
  }

  // ---------------------------------------------------------------- over every run

  ghost predicate Run(ss: seq<Snapshot>, es: seq<Event>) {
    |ss| == |es| + 1 && Inv(ss[0]) && forall i :: 0 <= i < |es| ==> Step(ss[i], es[i], ss[i + 1])
  }

  lemma InitialTable()
    ensures Inv(Snapshot(map[], {}, 0, map[]))
  {
  }

  lemma {:induction false} RunKeeps(ss: seq<Snapshot>, es: seq<Event>, n: nat)
    requires Run(ss, es) && n < |ss|
    ensures Inv(ss[n])
  {
    hide Inv, Step;
    if n > 0 {
      RunKeeps(ss, es, n - 1);
      assert Step(ss[n - 1], es[n - 1], ss[n - 1 + 1]);
      StepKeeps(ss[n - 1], es[n - 1], ss[n]);
    }
  }

  /** The waiters an event releases. */
  function Released(s: Snapshot, e: Event): set<Waiter> {
    if e.Waking? then Members(QueueAt(s.queues, e.at)[..WakeCount(s, e.at, e.count)]) else {}
  }

  lemma StepReleases(s: Snapshot, e: Event, t: Snapshot)
    requires Step(s, e, t)
    ensures t.closed == s.closed + Released(s, e)
  {
    hide QueueAt, WithQueue;
  }

  /** Between states `i` and `j`, exactly the waiters that some wake counted are released. */
  lemma {:induction false} ReleasedByWakes(ss: seq<Snapshot>, es: seq<Event>, i: nat, j: nat, w: Waiter)
    requires Run(ss, es) && i <= j < |ss|
    ensures w in ss[j].closed <==> w in ss[i].closed || exists m :: i <= m < j && w in Released(ss[m], es[m])
    decreases j - i
  {
    hide Inv, Step, Released;
    if i < j {
      ReleasedByWakes(ss, es, i, j - 1, w);
      assert Step(ss[j - 1], es[j - 1], ss[j - 1 + 1]);
      StepReleases(ss[j - 1], es[j - 1], ss[j]);
    }
  }

  /** The task waits in the same wait in all the states from `i` to `j`. */
  ghost predicate StaysIn(ss: seq<Snapshot>, i: nat, j: nat, p: int, b: Block)
    requires i <= j < |ss|
  {
    forall m :: i <= m <= j ==> p in ss[m].blocked && ss[m].blocked[p] == b
  }

  /** A task that waits from event `i` on and is asked at event `j` whether it can resume does so exactly when
      some wake in between released it, or it has a deadline and that has passed. */
  lemma ResumesIffWoken(ss: seq<Snapshot>, es: seq<Event>, i: nat, j: nat)
    requires Run(ss, es) && i < j < |es| && es[i].Waiting?
    requires es[j].Resuming? && es[j].who == es[i].pid
    requires es[i].pid in ss[i + 1].blocked && StaysIn(ss, i + 1, j, es[i].pid, ss[i + 1].blocked[es[i].pid])
    ensures CanEnd(ss[j], es[j].who, es[j].expired) <==>
            || (es[i].deadline && es[j].expired)
            || exists m :: i < m < j && ss[i].next in Released(ss[m], es[m])
  {
    RunKeeps(ss, es, i);
    assert Step(ss[i], es[i], ss[i + 1]);
    assert ss[i].next !in ss[i + 1].closed;
    ReleasedByWakes(ss, es, i + 1, j, ss[i].next);
  }

  /** First come, first served at an address: of two tasks that wait there throughout, the one that came
      first is released no later. */
  lemma {:induction false} FirstComeFirstServed(ss: seq<Snapshot>, es: seq<Event>, i: nat, j: nat, p: int, q: int,
                                                b: Block, c: Block)
    requires Run(ss, es) && i <= j < |ss| && StaysIn(ss, i, j, p, b) && StaysIn(ss, i, j, q, c)
    requires b.uaddr == c.uaddr && b.waiter < c.waiter && c.waiter !in ss[i].closed
    ensures c.waiter in ss[j].closed ==> b.waiter in ss[j].closed
    decreases j - i
  {
    if i < j {
      hide Inv, Step;
      FirstComeFirstServed(ss, es, i, j - 1, p, q, b, c);
      RunKeeps(ss, es, j - 1);
      assert Step(ss[j - 1], es[j - 1], ss[j - 1 + 1]);
      ReleasedInOrder(ss[j - 1], es[j - 1], ss[j], p, q);
    }
  }

  lemma ReleasedInOrder(s: Snapshot, e: Event, t: Snapshot, p: int, q: int)
    requires Inv(s) && Step(s, e, t) && p in s.blocked && q in s.blocked
    requires s.blocked[p].uaddr == s.blocked[q].uaddr && s.blocked[p].waiter < s.blocked[q].waiter
    requires s.blocked[q].waiter in s.closed ==> s.blocked[p].waiter in s.closed
    ensures s.blocked[q].waiter in t.closed ==> s.blocked[p].waiter in t.closed
  {
    StepReleases(s, e, t);
    var b, c := s.blocked[p], s.blocked[q];
    assert Waits(s.queues, s.closed, s.next, b) && Waits(s.queues, s.closed, s.next, c);
    if c.waiter in Released(s, e) && b.waiter !in s.closed {
      var ws, n := QueueAt(s.queues, e.at), WakeCount(s, e.at, e.count);
      assert c.waiter in ws && c.waiter !in s.closed && c.waiter in QueueAt(s.queues, c.uaddr);
      assert e.at == c.uaddr && b.waiter in ws && InOrder(ws);
      EarlierFirst(ws, n, b.waiter, c.waiter);
    }
  }

  /** Both tasks wait at the same address, and the first came first. */
  ghost predicate CameFirst(s: Snapshot, p: int, q: int) {
    && p in s.blocked && q in s.blocked && s.blocked[p].uaddr == s.blocked[q].uaddr
    && s.blocked[p].waiter < s.blocked[q].waiter
  }

  /** Of two tasks that wait at an address, the one that came first is released if the other one is. */
  ghost predicate Orderly(s: Snapshot) {
    forall p, q :: CameFirst(s, p, q) ==> s.blocked[q].waiter in s.closed ==> s.blocked[p].waiter in s.closed
  }

  lemma StepOrderly(s: Snapshot, e: Event, t: Snapshot)
    requires Inv(s) && Orderly(s) && Step(s, e, t)
    ensures Orderly(t)
  {
    StepReleases(s, e, t);
    forall p, q | CameFirst(t, p, q) && t.blocked[q].waiter in t.closed ensures t.blocked[p].waiter in t.closed {
      BlockedSince(s, e, t, p);
      BlockedSince(s, e, t, q);
      hide Inv, Step, Released;
      assert CameFirst(s, p, q);
      ReleasedInOrder(s, e, t, p, q);
    }
  }

  /** A blocked task was blocked before, in the same wait, unless it starts waiting; a new waiter is not
      released. */
  lemma BlockedSince(s: Snapshot, e: Event, t: Snapshot, p: int)
    requires Inv(s) && Step(s, e, t) && p in t.blocked
    ensures (p in s.blocked && s.blocked[p] == t.blocked[p]) || t.blocked[p].waiter == s.next
    ensures t.blocked[p].waiter == s.next ==>
            s.next !in t.closed && forall q :: q in t.blocked ==> t.blocked[q].waiter <= s.next
    ensures p in s.blocked ==> s.blocked[p].waiter < s.next
  {
    hide QueueAt, WithQueue, Without;
    if p in s.blocked { assert Waits(s.queues, s.closed, s.next, s.blocked[p]); }
    forall q | q in s.blocked ensures s.blocked[q].waiter < s.next {
      assert Waits(s.queues, s.closed, s.next, s.blocked[q]);
    }
  }

  /** First come, first served in every state of every run. */
  lemma {:induction false} RunOrderly(ss: seq<Snapshot>, es: seq<Event>, n: nat)
    requires Run(ss, es) && Orderly(ss[0]) && n < |ss|
    ensures Orderly(ss[n])
  {
    hide Inv, Step, Orderly;
    if n > 0 {
      RunOrderly(ss, es, n - 1);
      RunKeeps(ss, es, n - 1);
      assert Step(ss[n - 1], es[n - 1], ss[n - 1 + 1]);
      StepOrderly(ss[n - 1], es[n - 1], ss[n]);
    }
  }

  lemma EarlierFirst(ws: seq<Waiter>, n: nat, x: Waiter, y: Waiter)
    requires InOrder(ws) && n <= |ws| && x in ws && y in ws[..n] && x < y
    ensures x in ws[..n]
  {
    var i :| 0 <= i < |ws| && ws[i] == x;
    var j :| 0 <= j < n && ws[..n][j] == y;
    assert i < n;
    assert ws[..n][i] == x;
  }

  /** A wake lets exactly the oldest waiters go, as many as it is for: a task with fewer waiters before it in
      its queue than that can resume whenever it is asked, and any other stays as it was. */
  lemma WakesOldest(ss: seq<Snapshot>, es: seq<Event>, m: nat, j: nat, p: int, i: nat)
    requires Run(ss, es) && m < j < |es| && p in ss[m].blocked && StaysIn(ss, m, j, p, ss[m].blocked[p])
    requires es[m].Waking? && es[m].at == ss[m].blocked[p].uaddr
    requires i < |QueueAt(ss[m].queues, es[m].at)| && QueueAt(ss[m].queues, es[m].at)[i] == ss[m].blocked[p].waiter
    ensures i < es[m].count ==> forall expired :: CanEnd(ss[j], p, expired)
    ensures i >= es[m].count ==> forall expired :: CanEnd(ss[m + 1], p, expired) <==> CanEnd(ss[m], p, expired)
  {
    var ws, b := QueueAt(ss[m].queues, es[m].at), ss[m].blocked[p];
    WakesOne(ss, es, m, i);
    assert ss[j].blocked[p] == ss[m + 1].blocked[p] == b;
    if i < es[m].count { ReleasedByWakes(ss, es, m + 1, j, b.waiter); }
  }

  /** The waiter at place `i` of a queue is released by a wake there exactly if the wake is for more. */
  lemma WakesOne(ss: seq<Snapshot>, es: seq<Event>, m: nat, i: nat)
    requires Run(ss, es) && m < |es| && es[m].Waking? && i < |QueueAt(ss[m].queues, es[m].at)|
    ensures QueueAt(ss[m].queues, es[m].at)[i] !in ss[m].closed
    ensures QueueAt(ss[m].queues, es[m].at)[i] in ss[m + 1].closed <==> i < es[m].count
  {
    RunKeeps(ss, es, m);
    Fresh(ss[m], es[m].at);
    assert Step(ss[m], es[m], ss[m + 1]);
    WokenWakes(ss[m], es[m].at, es[m].count);
    var ws, n := QueueAt(ss[m].queues, es[m].at), WakeCount(ss[m], es[m].at, es[m].count);
    if i < n { assert ws[..n][i] == ws[i]; }
  }

  /** No wake-up is lost: after a wake for at least as many waiters as are queued, every task that was
      waiting there can resume whenever it is asked. */
  lemma NoLostWakeup(ss: seq<Snapshot>, es: seq<Event>, m: nat, j: nat, p: int, b: Block)
    requires Run(ss, es) && m < j < |es| && StaysIn(ss, m, j, p, b)
    requires es[m].Waking? && es[m].at == b.uaddr && |QueueAt(ss[m].queues, b.uaddr)| <= es[m].count
    ensures forall expired :: CanEnd(ss[j], p, expired)
  {
    RunKeeps(ss, es, m);
    assert Step(ss[m], es[m], ss[m + 1]);
    assert Waits(ss[m].queues, ss[m].closed, ss[m].next, b);
    StepReleases(ss[m], es[m], ss[m + 1]);
    var ws := QueueAt(ss[m].queues, b.uaddr);
    assert ws[..|ws|] == ws;
    ReleasedByWakes(ss, es, m + 1, j, b.waiter);
  }

  // ---------------------------------------------------------------- the table

  class FutexTable {
    var queues: Queues
    var closed: set<Waiter>
    var next: nat
    var blocked: map<int, Block>

    ghost function State(): Snapshot
      reads this
    {
      Snapshot(queues, closed, next, blocked)
    }

    ghost predicate Valid()
      reads this
    {
      Inv(State())
    }

    constructor ()
      ensures Valid() && State() == Snapshot(map[], {}, 0, map[])
    {
      queues, closed, next, blocked := map[], {}, 0, map[];
    }

    /** Closing a channel twice would be fatal. */
    method CloseChannel(w: Waiter)
      requires w !in closed
      modifies this`closed
      ensures closed == old(closed) + {w}
    {
      closed := closed + {w};
    }

    method RemoveWaiter(uaddr: u32, w: Waiter)
      requires forall a :: a in queues ==> queues[a] != []
      modifies this`queues
      ensures queues == WithQueue(old(queues), uaddr, Without(QueueAt(old(queues), uaddr), w))
    {
      var ws := QueueAt(queues, uaddr);
      for i := 0 to |ws|
        invariant w !in ws[..i] && queues == old(queues)
      {
        if ws[i] == w {
          WithoutAt(ws, i);
          var rest := ws[..i] + ws[i + 1..];
          if |rest| == 0 { queues := queues - {uaddr}; } else { queues := queues[uaddr := rest]; }
          return;
        }
      }
      WithoutAbsent(ws, w);
    }

    /** The checks of FUTEX_WAIT: the word still has the expected value, and a timeout is readable and
        proper. */
    static method Admit(space: AddressSpace, uaddr: u32, value: u32, timeoutAddr: u32) returns (r: Option<int>)
      requires space.Sized()
      ensures r == Admission(space.Access(), space.data[..], uaddr, value, timeoutAddr)
      ensures r.None? && timeoutAddr != 0 ==>
                && space.CanAccess(timeoutAddr, 4, PROT_READ) && space.CanAccess(Add32(timeoutAddr, 4), 4, PROT_READ)
                && Get32(space.data[..], Add32(timeoutAddr, 4)) < 1_000_000_000
    {
      var current := space.Read32(uaddr);
      if current.None? { return Some(-EFAULT); }
      if current.value != value { return Some(-EAGAIN); }
      if timeoutAddr != 0 {
        var sec := space.Read32(timeoutAddr);
        var nsec := space.Read32(Add32(timeoutAddr, 4));
        if sec.None? || nsec.None? || nsec.value >= 1_000_000_000 { return Some(-EFAULT); }
      }
      r := None;
    }

    /** FUTEX_WAIT by a scheduled task.  Without a result the task is blocked, last in its queue. */
    method Wait(pid: int, uaddr: u32, deadline: bool) returns (r: Option<int>)
      requires Valid()
      modifies this`queues, this`next, this`blocked
      ensures Valid() && (r.None? <==> pid !in old(blocked)) && (r.Some? ==> r.value == -EAGAIN)
      ensures Step(old(State()), if r.None? then Waiting(pid, uaddr, deadline) else Refusing, State())
    {
      hide Queued, Matched;
      var waiter := next;
      ghost var s := State();
      NoEmpty(s);
      next := next + 1;
      queues := queues[uaddr := QueueAt(queues, uaddr) + [waiter]];
      if pid in blocked {
        AppendWithout(s, uaddr);
        RemoveWaiter(uaddr, waiter);
        StepKeeps(s, Refusing, State());
        return Some(-EAGAIN);
      }
      blocked := blocked[pid := Block(uaddr, waiter, deadline)];
      StepKeeps(s, Waiting(pid, uaddr, deadline), State());
      r := None;
    }

    /** FUTEX_WAKE: releases the oldest waiters, at most `value` of them, and returns how many. */
    method Wake(uaddr: u32, value: u32) returns (n: nat)
      requires Valid()
      modifies this`queues, this`closed
      ensures Valid() && Step(old(State()), Waking(uaddr, value), State())
      ensures n == WakeCount(old(State()), uaddr, value) && |closed| == |old(closed)| + n
      ensures Wakes(old(State()), uaddr, value, n, State())
    {
      hide Queued, Matched;
      ghost var s := State();
      var ws := QueueAt(queues, uaddr);
      var limit := if value > |ws| then |ws| else value;
      Fresh(s, uaddr);
      WokenWakes(s, uaddr, value);
      CloseFirst(ws, limit);
      if limit == |ws| { queues := queues - {uaddr}; } else { queues := queues[uaddr := ws[limit..]]; }
      StepKeeps(s, Waking(uaddr, value), State());
      n := limit;
    }

    /** Closes the channels of the first `n` waiters. */
    method CloseFirst(ws: seq<Waiter>, n: nat)
      requires n <= |ws| && InOrder(ws) && forall w :: w in ws ==> w !in closed
      modifies this`closed
      ensures closed == old(closed) + Members(ws[..n]) && |closed| == |old(closed)| + n
    {
      ghost var c := closed;
      for i := 0 to n
        invariant closed == c + Members(ws[..i]) && |closed| == |c| + i
      {
        NotYet(ws, i);
        CloseChannel(ws[i]);
      }
    }

    /** Completes a blocked wait once its deadline has passed or a wake has released it. */
    method TryResume(pid: int, expired: bool) returns (resumed: bool, result: Option<int>)
      requires Valid()
      modifies this`queues, this`blocked
      ensures Valid() && Step(old(State()), Resuming(pid, expired), State())
      ensures resumed <==> pid !in old(blocked) || CanEnd(old(State()), pid, expired)
      ensures resumed && pid in old(blocked) ==>
              result == Some(if old(blocked)[pid].deadline && expired then -ETIMEDOUT else 0)
      ensures !resumed || pid !in old(blocked) ==> result == None
    {
      hide Queued, Matched;
      ghost var s := State();
      NoEmpty(s);
      if pid !in blocked { return true, None; }
      var b := blocked[pid];
      var r := 0;
      if b.deadline && expired { r := -ETIMEDOUT; } else if b.waiter !in closed { return false, None; }
      RemoveWaiter(b.uaddr, b.waiter);
      blocked := blocked - {pid};
      StepKeeps(s, Resuming(pid, expired), State());
      return true, Some(r);
    }

    /** futex(2) by a scheduled task; without a result the task is blocked. */
    method Futex(pid: int, space: AddressSpace, uaddr: u32, op: u32, value: u32, timeoutAddr: u32)
      returns (r: Option<int>, ghost e: Event)
      requires Valid() && space.Sized()
      modifies this
      ensures Valid() && Step(old(State()), e, State())
      ensures r.None? <==> e.Waiting?
      ensures e == FutexEvent(old(State()), space.Access(), space.data[..], pid, uaddr, op, value, timeoutAddr)
      ensures e.Waking? ==> r == Some(WakeCount(old(State()), uaddr, value))
                            && Wakes(old(State()), uaddr, value, r.value, State())
      ensures e.Waking? <==> uaddr % 4 == 0 && (op == 1 || op == 129)
      ensures e.Waiting? || e.Refusing? ==> uaddr % 4 == 0 && (op == 0 || op == 128)
      ensures r == Some(-EINVAL) <==> uaddr % 4 != 0
      ensures r == Some(-ENOSYS) <==> uaddr % 4 == 0 && op !in {0, 1, 128, 129}
      ensures e.Refusing? ==> r == Some(-EAGAIN)
      ensures e.Idle? ==> r == Some(if uaddr % 4 != 0 then -EINVAL else if Command(op) > 1 then -ENOSYS
                                    else Admission(space.Access(), space.data[..], uaddr, value, timeoutAddr).value)
    {
      e := Idle;
      if uaddr % 4 != 0 { return Some(-EINVAL), e; }
      var command := Command(op);
      if command == 0 {
        r := Admit(space, uaddr, value, timeoutAddr);
        if r.Some? { return; }
        r := Wait(pid, uaddr, timeoutAddr != 0);
        e := if r.None? then Waiting(pid, uaddr, timeoutAddr != 0) else Refusing;
      } else if command == 1 {
        var n := Wake(uaddr, value);
        r, e := Some(n), Waking(uaddr, value);
      } else {
        r := Some(-ENOSYS);
      }
    }
  }

  /** The operation without the private flag. */
  function Command(op: u32): u32 {
    if HasFlag(op, FUTEX_PRIVATE) then op - FUTEX_PRIVATE else op
  }

  /** Why a wait is refused at once: the word or the timeout cannot be read, the timeout is improper, or
      the word has changed. */
  ghost function Admission(v: View, d: seq<u8>, uaddr: u32, value: u32, timeoutAddr: u32): (r: Option<int>)
    requires |d| == v.max
    ensures r.None? <==> WordIs(v, d, uaddr, value) && (timeoutAddr == 0 || TimeoutOk(v, d, timeoutAddr))
    ensures r == Some(-EAGAIN) <==> v.Permits(uaddr, 4, PROT_READ) && Get32(d, uaddr) != value
    ensures r in {None, Some(-EAGAIN), Some(-EFAULT)}
  {
    if !v.Permits(uaddr, 4, PROT_READ) then Some(-EFAULT)
    else if Get32(d, uaddr) != value then Some(-EAGAIN)
    else if timeoutAddr == 0 || TimeoutOk(v, d, timeoutAddr) then None
    else Some(-EFAULT)
  }

  ghost predicate TimeoutOk(v: View, d: seq<u8>, a: u32) {
    && a + 4 <= |d| && v.Permits(a, 4, PROT_READ)
    && Add32(a, 4) + 4 <= |d| && v.Permits(Add32(a, 4), 4, PROT_READ) && Get32(d, Add32(a, 4)) < 1_000_000_000
  }

  /** What a futex call does to the table. */
  ghost function FutexEvent(s: Snapshot, v: View, d: seq<u8>, pid: int, uaddr: u32, op: u32, value: u32,
                            timeoutAddr: u32): Event
    requires |d| == v.max
  {
    if uaddr % 4 != 0 || Command(op) > 1 then Idle
    else if Command(op) == 1 then Waking(uaddr, value)
    else if Admission(v, d, uaddr, value, timeoutAddr).Some? then Idle
    else if pid in s.blocked then Refusing
    else Waiting(pid, uaddr, timeoutAddr != 0)
  }

  lemma NoEmpty(s: Snapshot)
    requires Inv(s)
    ensures forall a :: a in s.queues ==> s.queues[a] != []
  {
  }

  lemma Fresh(s: Snapshot, a: u32)
    requires Inv(s)
    ensures InOrder(QueueAt(s.queues, a)) && forall w :: w in QueueAt(s.queues, a) ==> w !in s.closed
  {
  }

  lemma NotYet(ws: seq<Waiter>, i: nat)
    requires i < |ws| && InOrder(ws)
    ensures ws[i] in ws && ws[i] !in ws[..i] && Members(ws[..i + 1]) == Members(ws[..i]) + {ws[i]}
  {
    assert ws[..i + 1] == ws[..i] + [ws[i]];
  }

  /** Queueing a new waiter and removing it again changes nothing. */
  lemma AppendWithout(s: Snapshot, a: u32)
    requires Inv(s)
    ensures var x := s.queues[a := QueueAt(s.queues, a) + [s.next]];
            WithQueue(x, a, Without(QueueAt(x, a), s.next)) == s.queues && forall b :: b in x ==> x[b] != []
  {
    var ws := QueueAt(s.queues, a);
    assert s.next !in ws;
    LastWithout(ws, s.next);
    NoEmpty(s);
    hide Queued, Matched, Without;
  }

  lemma LastWithout(ws: seq<Waiter>, w: Waiter)
    requires w !in ws
    ensures Without(ws + [w], w) == ws
  {
    WithoutAt(ws + [w], |ws|);
  }
}
