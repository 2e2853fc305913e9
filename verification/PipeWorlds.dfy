/** The descriptor tables of all processes and the pipes behind them, as values: what each system call
    does to them, and what holds over every run. */
module PipeWorlds {
  import opened Words
  import opened Pipes

  /** A process and a descriptor number in its table. */
  type Key = (int, int)

  /** What a descriptor refers to; only pipe ends are counted, and only they are cloned. */
  datatype Slot = PipeEnd(end: PipeHandle) | OtherFile

  type Table = map<Key, Slot>

  // ---------------------------------------------------------------- counting the ends of a pipe

  /** A clone of a descriptor's file: the same end of the same pipe, or the same other file. */
  ghost predicate Alike(s: Slot, t: Slot) {
    if s.PipeEnd? then t.PipeEnd? && t.end.pipe == s.end.pipe && t.end.write == s.end.write else t.OtherFile?
  }

  ghost predicate Leads(s: Slot, p: PipeBuffer, write: bool) {
    s.PipeEnd? && s.end.pipe == p && s.end.write == write
  }

  /** The descriptors that refer to the given end of a pipe. */
  ghost function Holders(t: Table, p: PipeBuffer, write: bool): set<Key> {
    set k | k in t && Leads(t[k], p, write)
  }

  /** No handle is in two slots. */
  ghost predicate Distinct(t: Table) {
    forall j, k :: j in t && k in t && t[j].PipeEnd? && t[j] == t[k] ==> j == k
  }

  lemma HoldersAdd(t: Table, k: Key, s: Slot, p: PipeBuffer, write: bool)
    requires k !in t
    ensures Holders(t[k := s], p, write) == Holders(t, p, write) + (if Leads(s, p, write) then {k} else {})
    ensures k !in Holders(t, p, write)
    ensures |Holders(t[k := s], p, write)| == |Holders(t, p, write)| + if Leads(s, p, write) then 1 else 0
  {
  }

  lemma HoldersDrop(t: Table, k: Key, p: PipeBuffer, write: bool)
    requires k in t
    ensures Holders(t - {k}, p, write) == Holders(t, p, write) - {k}
    ensures |Holders(t - {k}, p, write)| == |Holders(t, p, write)| - if Leads(t[k], p, write) then 1 else 0
  {
    assert k in Holders(t, p, write) <==> Leads(t[k], p, write);
  }

  // ---------------------------------------------------------------- the whole system as a value

  /** Every pipe's state, the handles not closed yet, and the descriptor tables. */
  datatype World = World(pipes: map<PipeBuffer, Pipe>, open: set<PipeHandle>, fds: Table)

  /** A pipe's counts are the numbers of descriptors on its ends, and its bytes are in order. */
  ghost predicate Counted(w: World, p: PipeBuffer)
    requires p in w.pipes
  {
    && w.pipes[p].Valid()
    && w.pipes[p].readers == |Holders(w.fds, p, false)|
    && w.pipes[p].writers == |Holders(w.fds, p, true)|
  }

  /** A handle is unclosed exactly when it is in a slot, and then it is in one only. */
  ghost predicate Placed(w: World) {
    && Distinct(w.fds)
    && (forall k :: k in w.fds && w.fds[k].PipeEnd? ==> w.fds[k].end in w.open)
    && (forall h :: h in w.open ==> h.pipe in w.pipes && Slotted(w.fds, h))
  }

  ghost predicate Slotted(t: Table, h: PipeHandle) {
    exists k :: k in t && t[k] == PipeEnd(h)
  }

  ghost predicate Inv(w: World) {
    Placed(w) && forall p :: p in w.pipes ==> Counted(w, p)
  }

  /** What every later state of a pipe keeps: an end that has no handle left never gets one again, and
      without writers no byte is added. */
  ghost predicate Later(p: Pipe, q: Pipe) {
    && (p.writers == 0 ==> q.writers == 0 && |q.data| <= |p.data|)
    && (p.readers == 0 ==> q.readers == 0)
  }

  /** Every pipe is in a later state. */
  ghost predicate Progress(v: World, w: World) {
    v.pipes.Keys <= w.pipes.Keys && forall p :: p in v.pipes ==> Later(v.pipes[p], w.pipes[p])
  }

  /** As `Progress`, and no byte has moved. */
  ghost predicate Quiet(v: World, w: World) {
    Progress(v, w) && forall p :: p in v.pipes ==> w.pipes[p].data == v.pipes[p].data
  }

  lemma ProgressTransitive(u: World, v: World, w: World)
    requires Progress(u, v) && Progress(v, w)
    ensures Progress(u, w)
  {
  }

  lemma QuietTransitive(u: World, v: World, w: World)
    requires Quiet(u, v) && Quiet(v, w)
    ensures Quiet(u, w)
  {
    ProgressTransitive(u, v, w);
  }

  /** A handle in a slot keeps its end's count above zero. */
  lemma OpenCounts(w: World, h: PipeHandle)
    requires Inv(w) && h in w.open
    ensures h.pipe in w.pipes && Counted(w, h.pipe)
    ensures if h.write then w.pipes[h.pipe].writers > 0 else w.pipes[h.pipe].readers > 0
  {
    assert Slotted(w.fds, h);
    var k :| k in w.fds && w.fds[k] == PipeEnd(h);
    assert k in Holders(w.fds, h.pipe, h.write);
  }

  /** A clone of `h` in the free slot `k`. */
  ghost function Installed(w: World, k: Key, h: PipeHandle, clone: PipeHandle): World
    requires h.pipe in w.pipes
  {
    World(w.pipes[h.pipe := Ends(w.pipes[h.pipe], h.write, 1)], w.open + {clone}, w.fds[k := PipeEnd(clone)])
  }

  lemma SlottedStays(t: Table, u: Table, h: PipeHandle)
    requires Slotted(t, h) && forall k :: k in t && t[k] == PipeEnd(h) ==> k in u && u[k] == t[k]
    ensures Slotted(u, h)
  {
    var k :| k in t && t[k] == PipeEnd(h);
    assert u[k] == PipeEnd(h);
  }

  lemma InstallPlaced(w: World, k: Key, h: PipeHandle, clone: PipeHandle)
    requires Placed(w) && k !in w.fds && h in w.open && clone !in w.open && clone.pipe == h.pipe
    ensures h.pipe in w.pipes && Placed(Installed(w, k, h, clone))
  {
    var x := Installed(w, k, h, clone);
    forall o | o in x.open ensures Slotted(x.fds, o) {
      if o == clone { assert x.fds[k] == PipeEnd(o); } else { SlottedStays(w.fds, x.fds, o); }
    }
  }

  lemma InstallCounted(w: World, k: Key, h: PipeHandle, clone: PipeHandle, p: PipeBuffer)
    requires k !in w.fds && h.pipe in w.pipes && clone.pipe == h.pipe && clone.write == h.write
    requires p in w.pipes && Counted(w, p)
    ensures Counted(Installed(w, k, h, clone), p)
  {
    hide Holders;
    HoldersAdd(w.fds, k, PipeEnd(clone), p, false);
    HoldersAdd(w.fds, k, PipeEnd(clone), p, true);
  }

  lemma InstallKeeps(w: World, k: Key, h: PipeHandle, clone: PipeHandle)
    requires Inv(w) && k !in w.fds && h in w.open && clone !in w.open && clone.pipe == h.pipe && clone.write == h.write
    ensures h.pipe in w.pipes
    ensures Inv(Installed(w, k, h, clone)) && Quiet(w, Installed(w, k, h, clone))
  {
    hide Counted, Placed, Holders;
    OpenCounts(w, h);
    InstallPlaced(w, k, h, clone);
    forall p | p in w.pipes ensures Counted(Installed(w, k, h, clone), p) {
      InstallCounted(w, k, h, clone, p);
    }
  }

  /** Slot `k` emptied and its handle closed. */
  ghost function Shed(w: World, k: Key): World
    requires k in w.fds && (w.fds[k].PipeEnd? ==> w.fds[k].end.pipe in w.pipes)
  {
    if w.fds[k].OtherFile? then w.(fds := w.fds - {k})
    else
      var h := w.fds[k].end;
      World(w.pipes[h.pipe := Ends(w.pipes[h.pipe], h.write, -1)], w.open - {h}, w.fds - {k})
  }

  lemma ShedPlaced(w: World, k: Key)
    requires Placed(w) && k in w.fds
    ensures w.fds[k].PipeEnd? ==> w.fds[k].end.pipe in w.pipes
    ensures Placed(Shed(w, k))
  {
    var x := Shed(w, k);
    forall o | o in x.open ensures Slotted(x.fds, o) { SlottedStays(w.fds, x.fds, o); }
  }

  lemma ShedCounted(w: World, k: Key, p: PipeBuffer)
    requires k in w.fds && (w.fds[k].PipeEnd? ==> w.fds[k].end.pipe in w.pipes)
    requires p in w.pipes && Counted(w, p)
    ensures Counted(Shed(w, k), p)
  {
    hide Holders;
    HoldersDrop(w.fds, k, p, false);
    HoldersDrop(w.fds, k, p, true);
  }

  lemma ShedKeeps(w: World, k: Key)
    requires Inv(w) && k in w.fds
    ensures w.fds[k].PipeEnd? ==> w.fds[k].end.pipe in w.pipes
    ensures Inv(Shed(w, k)) && Quiet(w, Shed(w, k))
  {
    hide Counted, Holders;
    ShedPlaced(w, k);
    if w.fds[k].PipeEnd? { OpenCounts(w, w.fds[k].end); }
    forall p | p in w.pipes ensures Counted(Shed(w, k), p) { ShedCounted(w, k, p); }
  }

  lemma PutOtherPlaced(w: World, x: World, k: Key)
    requires Placed(w) && k !in w.fds && x == w.(fds := w.fds[k := OtherFile])
    ensures Placed(x)
  {
    forall o | o in x.open ensures Slotted(x.fds, o) { SlottedStays(w.fds, x.fds, o); }
  }

  lemma PutOtherKeeps(w: World, k: Key)
    requires Inv(w) && k !in w.fds
    ensures Inv(w.(fds := w.fds[k := OtherFile])) && Quiet(w, w.(fds := w.fds[k := OtherFile]))
  {
    hide Holders, Placed;
    var x := w.(fds := w.fds[k := OtherFile]);
    PutOtherPlaced(w, x, k);
    forall p | p in x.pipes ensures Counted(x, p) {
      assert Counted(w, p);
      HoldersAdd(w.fds, k, OtherFile, p, false);
      HoldersAdd(w.fds, k, OtherFile, p, true);
    }
  }

  /** A new pipe with its two handles in the free slots `r` and `w`. */
  ghost function Created(v: World, r: Key, w: Key, p: PipeBuffer, reader: PipeHandle, writer: PipeHandle): World {
    World(v.pipes[p := Pipe([], 1, 1)], v.open + {reader, writer}, v.fds[r := PipeEnd(reader)][w := PipeEnd(writer)])
  }

  lemma NoHolders(v: World, p: PipeBuffer, write: bool)
    requires Placed(v) && p !in v.pipes
    ensures Holders(v.fds, p, write) == {}
  {
  }

  lemma CreatedPlaced(v: World, r: Key, w: Key, p: PipeBuffer, reader: PipeHandle, writer: PipeHandle)
    requires Placed(v) && r !in v.fds && w !in v.fds && r != w && p !in v.pipes
    requires reader !in v.open && writer !in v.open && reader != writer && reader.pipe == p && writer.pipe == p
    ensures Placed(Created(v, r, w, p, reader, writer))
  {
    var x := Created(v, r, w, p, reader, writer);
    assert x.fds[r] == PipeEnd(reader) && x.fds[w] == PipeEnd(writer);
    forall o | o in x.open ensures Slotted(x.fds, o) {
      if o in v.open { SlottedStays(v.fds, x.fds, o); }
    }
  }

  lemma CreatedCounted(v: World, r: Key, w: Key, p: PipeBuffer, reader: PipeHandle, writer: PipeHandle, q: PipeBuffer)
    requires Inv(v) && r !in v.fds && w !in v.fds && r != w && p !in v.pipes
    requires reader.pipe == p && writer.pipe == p && !reader.write && writer.write
    requires q in v.pipes || q == p
    ensures Counted(Created(v, r, w, p, reader, writer), q)
  {
    hide Holders;
    var t := v.fds[r := PipeEnd(reader)];
    HoldersAdd(v.fds, r, PipeEnd(reader), q, false);
    HoldersAdd(v.fds, r, PipeEnd(reader), q, true);
    HoldersAdd(t, w, PipeEnd(writer), q, false);
    HoldersAdd(t, w, PipeEnd(writer), q, true);
    if q == p {
      NoHolders(v, p, false);
      NoHolders(v, p, true);
    } else {
      assert Counted(v, q);
    }
  }

  lemma CreateKeeps(v: World, r: Key, w: Key, p: PipeBuffer, reader: PipeHandle, writer: PipeHandle)
    requires Inv(v) && r !in v.fds && w !in v.fds && r != w && p !in v.pipes
    requires reader !in v.open && writer !in v.open
    requires reader.pipe == p && writer.pipe == p && !reader.write && writer.write
    ensures Inv(Created(v, r, w, p, reader, writer)) && Quiet(v, Created(v, r, w, p, reader, writer))
  {
    CreatedPlaced(v, r, w, p, reader, writer);
    forall q | q in v.pipes || q == p ensures Counted(Created(v, r, w, p, reader, writer), q) {
      CreatedCounted(v, r, w, p, reader, writer, q);
    }
  }

  lemma PipeOk(w: World, h: PipeHandle)
    requires Inv(w) && h in w.open
    ensures h.pipe in w.pipes && w.pipes[h.pipe].Valid()
  {
    assert Counted(w, h.pipe);
  }

  /** Bytes moving through an open end keep everything. */
  lemma TransferKeeps(w: World, h: PipeHandle, q: Pipe)
    requires Inv(w) && h in w.open && h.pipe in w.pipes && q.Valid()
    requires q.readers == w.pipes[h.pipe].readers && q.writers == w.pipes[h.pipe].writers
    requires h.write || |q.data| <= |w.pipes[h.pipe].data|
    ensures var x := w.(pipes := w.pipes[h.pipe := q]);
            Inv(x) && Progress(w, x)
  {
    hide Holders;
    OpenCounts(w, h);
    var x := w.(pipes := w.pipes[h.pipe := q]);
    forall p | p in x.pipes ensures Counted(x, p) { assert Counted(w, p); }
  }

  /** The unclosed handles on an end of a pipe. */
  ghost function OpenEnds(w: World, p: PipeBuffer, write: bool): set<PipeHandle> {
    set h | h in w.open && h.pipe == p && h.write == write
  }

  lemma {:induction false} SameSize(t: Table, keys: set<Key>, hs: set<PipeHandle>)
    requires Distinct(t)
    requires forall k :: k in keys ==> k in t && t[k].PipeEnd? && t[k].end in hs
    requires forall h :: h in hs ==> exists k :: k in keys && k in t && t[k] == PipeEnd(h)
    ensures |keys| == |hs|
    decreases keys
  {
    if keys != {} {
      var k :| k in keys;
      var rest, others := keys - {k}, hs - {t[k].end};
      forall h | h in others ensures exists j :: j in rest && j in t && t[j] == PipeEnd(h) {
        var j :| j in keys && j in t && t[j] == PipeEnd(h);
        assert j in rest;
      }
      SameSize(t, rest, others);
    }
  }

  /** The handle is in this slot and in no other. */
  ghost predicate OnlyIn(t: Table, h: PipeHandle, k: Key) {
    k in t && t[k] == PipeEnd(h) && forall j :: j in t && t[j] == PipeEnd(h) ==> j == k
  }

  /** A pipe's counts are the numbers of unclosed handles on its ends, each of which is in exactly one
      slot. */
  lemma CountsAreHandles(w: World, p: PipeBuffer)
    requires Inv(w) && p in w.pipes
    ensures forall h :: h in w.open ==> exists k :: OnlyIn(w.fds, h, k)
    ensures w.pipes[p].readers == |OpenEnds(w, p, false)|
    ensures w.pipes[p].writers == |OpenEnds(w, p, true)|
  {
    assert Counted(w, p);
    EndsMatch(w, p, false);
    EndsMatch(w, p, true);
    forall h | h in w.open ensures exists k :: OnlyIn(w.fds, h, k) {
      assert Slotted(w.fds, h);
      var k :| k in w.fds && w.fds[k] == PipeEnd(h);
      assert OnlyIn(w.fds, h, k);
    }
  }

  lemma EndsMatch(w: World, p: PipeBuffer, write: bool)
    requires Placed(w)
    ensures |Holders(w.fds, p, write)| == |OpenEnds(w, p, write)|
  {
    var keys, hs := Holders(w.fds, p, write), OpenEnds(w, p, write);
    forall h | h in hs ensures exists k :: k in keys && k in w.fds && w.fds[k] == PipeEnd(h) {
      assert Slotted(w.fds, h);
      var k :| k in w.fds && w.fds[k] == PipeEnd(h);
      assert k in keys;
    }
    SameSize(w.fds, keys, hs);
  }

  // ---------------------------------------------------------------- what the system calls do

  /** A clone of `s` in the free slot `k`. */
  ghost predicate Copied(w: World, s: Slot, k: Key, x: World) {
    && k !in w.fds
    && if s.OtherFile? then x == w.(fds := w.fds[k := OtherFile])
       else
         && s.end in w.open && s.end.pipe in w.pipes && k in x.fds && x.fds[k].PipeEnd?
         && var clone := x.fds[k].end;
         && clone !in w.open && clone.pipe == s.end.pipe && clone.write == s.end.write
         && x == Installed(w, k, s.end, clone)
  }

  /** Slot `k` emptied, if it was not empty. */
  ghost predicate Emptied(w: World, k: Key, x: World) {
    if k in w.fds then (w.fds[k].PipeEnd? ==> w.fds[k].end.pipe in w.pipes) && x == Shed(w, k) else x == w
  }

  /** A new pipe with its ends in the free slots `r` and `k`. */
  ghost predicate PipeMade(w: World, r: Key, k: Key, x: World) {
    && r !in w.fds && k !in w.fds && r != k && r in x.fds && k in x.fds && x.fds[r].PipeEnd? && x.fds[k].PipeEnd?
    && var reader, writer := x.fds[r].end, x.fds[k].end;
    && reader.pipe == writer.pipe && reader.pipe !in w.pipes && !reader.write && writer.write
    && reader !in w.open && writer !in w.open
    && x == Created(w, r, k, reader.pipe, reader, writer)
  }

  /** A system call, with the intermediate states of those that act in several steps and the order in
      which loops over a table visit it. */
  datatype Op =
    | Makes(r: Key, w: Key)
    | Undoes(r: Key, w: Key, made: World, half: World)
    | Dups(from: Key, what: Slot, dst: Key, emptied: World)
    | Opens(k: Key)
    | Closes(k: Key)
    | Forks(parent: int, child: int, order: seq<Key>, mids: seq<World>)
    | Sheds(keys: set<Key>, order: seq<Key>, mids: seq<World>)
    | Reads(k: Key, n: nat, got: ReadResult)
    | Writes(k: Key, src: seq<u8>, put: WriteResult)
    | Stays

  function Members(order: seq<Key>): set<Key> {
    set k | k in order
  }

  predicate Unused(t: Table, pid: int) {
    forall k :: k in t ==> k.0 != pid
  }

  function Owned(s: set<Key>, pid: int): set<Key> {
    set k | k in s && k.0 == pid
  }

  /** The loop of fork: each visited descriptor of the parent is cloned for the child. */
  ghost predicate CopyAll(order: seq<Key>, child: int, mids: seq<World>) {
    |mids| == |order| + 1 && forall i :: 0 <= i < |order| ==> CopyOne(order[i], child, mids[i], mids[i + 1])
  }

  ghost predicate CopyOne(k: Key, child: int, w: World, x: World) {
    k in w.fds && Copied(w, w.fds[k], (child, k.1), x)
  }

  /** The loops of exec and exit: each visited descriptor is closed. */
  ghost predicate ShedAll(order: seq<Key>, mids: seq<World>) {
    |mids| == |order| + 1 && forall i :: 0 <= i < |order| ==> Emptied(mids[i], order[i], mids[i + 1])
  }

  ghost predicate Step(w: World, op: Op, x: World) {
    match op
    case Makes(r, k) => PipeMade(w, r, k, x)
    case Undoes(r, k, made, half) => PipeMade(w, r, k, made) && Emptied(made, r, half) && Emptied(half, k, x)
    case Dups(from, what, dst, emptied) =>
      && from != dst && (what.PipeEnd? ==> from in w.fds && w.fds[from] == what)
      && Emptied(w, dst, emptied) && Copied(emptied, what, dst, x)
    case Opens(k) => k !in w.fds && x == w.(fds := w.fds[k := OtherFile])
    case Closes(k) => Emptied(w, k, x)
    case Forks(parent, child, order, mids) =>
      && parent != child && Unused(w.fds, child) && Members(order) == Owned(w.fds.Keys, parent)
      && (forall i, j :: 0 <= i < j < |order| ==> order[i] != order[j])
      && CopyAll(order, child, mids) && mids[0] == w && x == mids[|order|]
    case Sheds(keys, order, mids) =>
      Members(order) == keys && ShedAll(order, mids) && mids[0] == w && x == mids[|order|]
    case Reads(k, n, got) =>
      && Piped(w, k) && var h := w.fds[k].end;
      got == ReadOf(w.pipes[h.pipe], h.write, n) && x == w.(pipes := w.pipes[h.pipe := AfterRead(w.pipes[h.pipe], got)])
    case Writes(k, src, put) =>
      && Piped(w, k) && var h := w.fds[k].end;
      put == WriteOf(w.pipes[h.pipe], h.write, src)
        && x == w.(pipes := w.pipes[h.pipe := AfterWrite(w.pipes[h.pipe], src, put)])
    case Stays => x == w
  }

  /** The descriptor is an end of a known pipe. */
  ghost predicate Piped(w: World, k: Key) {
    k in w.fds && w.fds[k].PipeEnd? && w.fds[k].end.pipe in w.pipes
  }

  lemma StepStays(w: World)
    ensures Step(w, Stays, w)
  {
  }

  lemma StepMakes(w: World, r: Key, k: Key, x: World)
    requires PipeMade(w, r, k, x)
    ensures Step(w, Makes(r, k), x)
  {
  }

  lemma StepUndoes(w: World, r: Key, k: Key, made: World, half: World, x: World)
    requires PipeMade(w, r, k, made) && Emptied(made, r, half) && Emptied(half, k, x)
    ensures Step(w, Undoes(r, k, made, half), x)
  {
  }

  lemma StepDups(w: World, from: Key, what: Slot, dst: Key, emptied: World, x: World)
    requires from != dst && (what.PipeEnd? ==> from in w.fds && w.fds[from] == what)
    requires Emptied(w, dst, emptied) && Copied(emptied, what, dst, x)
    ensures Step(w, Dups(from, what, dst, emptied), x)
  {
  }

  lemma StepForks(w: World, parent: int, child: int, order: seq<Key>, mids: seq<World>, x: World)
    requires parent != child && Unused(w.fds, child) && Members(order) == Owned(w.fds.Keys, parent)
    requires forall i, j :: 0 <= i < j < |order| ==> order[i] != order[j]
    requires CopyAll(order, child, mids) && mids[0] == w && x == mids[|order|]
    ensures Step(w, Forks(parent, child, order, mids), x)
  {
  }

  lemma StepSheds(w: World, keys: set<Key>, order: seq<Key>, mids: seq<World>, x: World)
    requires Members(order) == keys && ShedAll(order, mids) && mids[0] == w && x == mids[|order|]
    ensures Step(w, Sheds(keys, order, mids), x)
  {
  }

  lemma StepReads(w: World, k: Key, n: nat, got: ReadResult, x: World)
    requires Piped(w, k)
    requires var p := w.pipes[w.fds[k].end.pipe];
             got == ReadOf(p, w.fds[k].end.write, n)
             && x == w.(pipes := w.pipes[w.fds[k].end.pipe := AfterRead(p, got)])
    ensures Step(w, Reads(k, n, got), x)
  {
  }

  lemma StepWrites(w: World, k: Key, src: seq<u8>, put: WriteResult, x: World)
    requires Piped(w, k)
    requires var p := w.pipes[w.fds[k].end.pipe];
             put == WriteOf(p, w.fds[k].end.write, src)
             && x == w.(pipes := w.pipes[w.fds[k].end.pipe := AfterWrite(p, src, put)])
    ensures Step(w, Writes(k, src, put), x)
  {
  }

  // ---------------------------------------------------------------- every call keeps the invariant

  lemma SlotOpen(w: World, k: Key)
    requires Inv(w) && k in w.fds && w.fds[k].PipeEnd?
    ensures w.fds[k].end in w.open && w.fds[k].end.pipe in w.pipes
  {
  }

  lemma CopiedKeeps(w: World, s: Slot, k: Key, x: World)
    requires Inv(w) && Copied(w, s, k, x)
    ensures Inv(x) && Quiet(w, x)
  {
    hide Inv, Quiet;
    if s.OtherFile? { PutOtherKeeps(w, k); } else { InstallKeeps(w, k, s.end, x.fds[k].end); }
  }

  lemma EmptiedKeeps(w: World, k: Key, x: World)
    requires Inv(w) && Emptied(w, k, x)
    ensures Inv(x) && Quiet(w, x)
  {
    hide Inv;
    if k in w.fds { ShedKeeps(w, k); }
  }

  lemma PipeMadeKeeps(w: World, r: Key, k: Key, x: World)
    requires Inv(w) && PipeMade(w, r, k, x)
    ensures Inv(x) && Quiet(w, x)
  {
    hide Inv, Quiet;
    CreateKeeps(w, r, k, x.fds[r].end.pipe, x.fds[r].end, x.fds[k].end);
  }

  lemma QuietSelf(w: World)
    ensures Quiet(w, w)
  {
  }

  lemma {:induction false} CopyAllKeeps(order: seq<Key>, child: int, mids: seq<World>, i: nat)
    requires CopyAll(order, child, mids) && i <= |order| && Inv(mids[0])
    ensures Inv(mids[i]) && Quiet(mids[0], mids[i])
  {
    hide Inv, Quiet;
    if i == 0 { QuietSelf(mids[0]); } else {
      CopyAllKeeps(order, child, mids, i - 1);
      assert CopyOne(order[i - 1], child, mids[i - 1], mids[i - 1 + 1]);
      CopiedKeeps(mids[i - 1], mids[i - 1].fds[order[i - 1]], (child, order[i - 1].1), mids[i]);
      QuietTransitive(mids[0], mids[i - 1], mids[i]);
    }
  }

  lemma {:induction false} ShedAllKeeps(order: seq<Key>, mids: seq<World>, i: nat)
    requires ShedAll(order, mids) && i <= |order| && Inv(mids[0])
    ensures Inv(mids[i]) && Quiet(mids[0], mids[i])
  {
    hide Inv, Quiet;
    if i == 0 { QuietSelf(mids[0]); } else {
      ShedAllKeeps(order, mids, i - 1);
      assert Emptied(mids[i - 1], order[i - 1], mids[i - 1 + 1]);
      EmptiedKeeps(mids[i - 1], order[i - 1], mids[i]);
      QuietTransitive(mids[0], mids[i - 1], mids[i]);
    }
  }

  lemma ReadKeeps(w: World, k: Key, n: nat, got: ReadResult, x: World)
    requires Inv(w) && Step(w, Reads(k, n, got), x)
    ensures Inv(x) && Progress(w, x)
  {
    hide Inv, Progress;
    var h := w.fds[k].end;
    SlotOpen(w, k);
    PipeOk(w, h);
    ReadInOrder(w.pipes[h.pipe], h.write, n);
    TransferKeeps(w, h, AfterRead(w.pipes[h.pipe], ReadOf(w.pipes[h.pipe], h.write, n)));
  }

  lemma WriteKeeps(w: World, k: Key, src: seq<u8>, put: WriteResult, x: World)
    requires Inv(w) && Step(w, Writes(k, src, put), x)
    ensures Inv(x) && Progress(w, x)
  {
    hide Inv, Progress;
    var h := w.fds[k].end;
    SlotOpen(w, k);
    PipeOk(w, h);
    WriteInOrder(w.pipes[h.pipe], h.write, src);
    TransferKeeps(w, h, AfterWrite(w.pipes[h.pipe], src, WriteOf(w.pipes[h.pipe], h.write, src)));
  }

  /** Every call keeps the invariant and only moves pipes forward; none but reads and writes moves a
      byte. */
  lemma StepKeeps(w: World, op: Op, x: World)
    requires Inv(w) && Step(w, op, x)
    ensures Inv(x) && Progress(w, x)
    ensures !op.Reads? && !op.Writes? ==> Quiet(w, x)
  {
    hide Inv, Copied, Emptied, PipeMade, CopyAll, ShedAll;
    QuietSelf(w);
    match op
    case Makes(r, k) => PipeMadeKeeps(w, r, k, x);
    case Undoes(r, k, made, half) =>
      PipeMadeKeeps(w, r, k, made);
      EmptiedKeeps(made, r, half);
      EmptiedKeeps(half, k, x);
      QuietTransitive(w, made, half);
      QuietTransitive(w, half, x);
    case Dups(from, what, dst, emptied) =>
      EmptiedKeeps(w, dst, emptied);
      CopiedKeeps(emptied, what, dst, x);
      QuietTransitive(w, emptied, x);
    case Opens(k) => PutOtherKeeps(w, k);
    case Closes(k) => EmptiedKeeps(w, k, x);
    case Forks(parent, child, order, mids) => CopyAllKeeps(order, child, mids, |order|);
    case Sheds(keys, order, mids) => ShedAllKeeps(order, mids, |order|);
    case Reads(k, n, got) => ReadKeeps(w, k, n, got, x);
    case Writes(k, src, put) => WriteKeeps(w, k, src, put, x);
    case Stays =>
  }

  // ---------------------------------------------------------------- over every run

  /** Any interleaving of calls of any number of processes, from a state in which the invariant holds. */
  ghost predicate Run(ws: seq<World>, ops: seq<Op>) {
    |ws| == |ops| + 1 && Inv(ws[0]) && forall n :: 0 <= n < |ops| ==> Step(ws[n], ops[n], ws[n + 1])
  }

  /** Before the first call there is no pipe and no descriptor. */
  lemma InitialWorld()
    ensures Inv(World(map[], {}, map[]))
  {
  }

  /** In every state of every run, counts are numbers of handles and every handle is in one slot. */
  lemma {:induction false} RunKeeps(ws: seq<World>, ops: seq<Op>, n: nat)
    requires Run(ws, ops) && n < |ws|
    ensures Inv(ws[n])
  {
    hide Inv, Step;
    if n > 0 {
      RunKeeps(ws, ops, n - 1);
      assert Step(ws[n - 1], ops[n - 1], ws[n - 1 + 1]);
      StepKeeps(ws[n - 1], ops[n - 1], ws[n]);
    }
  }

  lemma {:induction false} RunProgress(ws: seq<World>, ops: seq<Op>, i: nat, j: nat)
    requires Run(ws, ops) && i <= j < |ws|
    ensures Progress(ws[i], ws[j])
    decreases j - i
  {
    hide Inv, Step;
    if i < j {
      RunProgress(ws, ops, i, j - 1);
      RunKeeps(ws, ops, j - 1);
      assert Step(ws[j - 1], ops[j - 1], ws[j - 1 + 1]);
      StepKeeps(ws[j - 1], ops[j - 1], ws[j]);
      ProgressTransitive(ws[i], ws[j - 1], ws[j]);
    }
  }

  /** The call goes through an end of this pipe. */
  ghost predicate Through(w: World, op: Op, p: PipeBuffer) {
    (op.Reads? || op.Writes?) && Piped(w, op.k) && w.fds[op.k].end.pipe == p
  }

  /** The bytes a call hands out of a pipe, and the bytes it accepts into it. */
  ghost function Out(w: World, op: Op, p: PipeBuffer): seq<u8> {
    if op.Reads? && Through(w, op, p) && op.got.Bytes? then op.got.bytes else []
  }

  ghost function In(w: World, op: Op, p: PipeBuffer): seq<u8> {
    if op.Writes? && Through(w, op, p) && op.put.Wrote? && op.put.n <= |op.src| then op.src[..op.put.n] else []
  }

  ghost function Given(ws: seq<World>, ops: seq<Op>, i: nat, j: nat, p: PipeBuffer): seq<u8>
    requires i <= j <= |ops| <= |ws|
    decreases j - i
  {
    if i == j then [] else Given(ws, ops, i, j - 1, p) + In(ws[j - 1], ops[j - 1], p)
  }

  ghost function Taken(ws: seq<World>, ops: seq<Op>, i: nat, j: nat, p: PipeBuffer): seq<u8>
    requires i <= j <= |ops| <= |ws|
    decreases j - i
  {
    if i == j then [] else Taken(ws, ops, i, j - 1, p) + Out(ws[j - 1], ops[j - 1], p)
  }

  lemma ReadConserves(w: World, k: Key, n: nat, got: ReadResult, x: World, p: PipeBuffer)
    requires Inv(w) && Step(w, Reads(k, n, got), x) && p in w.pipes
    ensures p in x.pipes && w.pipes[p].data == Out(w, Reads(k, n, got), p) + x.pipes[p].data
  {
    hide Inv;
    var h := w.fds[k].end;
    SlotOpen(w, k);
    PipeOk(w, h);
    ReadInOrder(w.pipes[h.pipe], h.write, n);
  }

  lemma WriteConserves(w: World, k: Key, src: seq<u8>, put: WriteResult, x: World, p: PipeBuffer)
    requires Inv(w) && Step(w, Writes(k, src, put), x) && p in w.pipes
    ensures p in x.pipes && w.pipes[p].data + In(w, Writes(k, src, put), p) == x.pipes[p].data
  {
    hide Inv;
    var h := w.fds[k].end;
    SlotOpen(w, k);
    PipeOk(w, h);
    WriteInOrder(w.pipes[h.pipe], h.write, src);
  }

  lemma StepConserves(w: World, op: Op, x: World, p: PipeBuffer)
    requires Inv(w) && Step(w, op, x) && p in w.pipes
    ensures p in x.pipes && w.pipes[p].data + In(w, op, p) == Out(w, op, p) + x.pipes[p].data
  {
    hide Inv, Step, Through;
    if op.Reads? {
      ReadConserves(w, op.k, op.n, op.got, x, p);
    } else if op.Writes? {
      WriteConserves(w, op.k, op.src, op.put, x, p);
    } else {
      StepKeeps(w, op, x);
    }
  }

  lemma WithinCapacity(w: World, p: PipeBuffer)
    requires Inv(w) && p in w.pipes
    ensures |w.pipes[p].data| <= CAPACITY
  {
    assert Counted(w, p);
  }

  /** Over every run, the bytes buffered first followed by the bytes that writes accepted are, in order,
      the bytes that reads returned followed by the bytes buffered now; the buffer never exceeds its
      capacity. */
  lemma {:induction false} BytesConserved(ws: seq<World>, ops: seq<Op>, i: nat, j: nat, p: PipeBuffer)
    requires Run(ws, ops) && i <= j < |ws| && p in ws[i].pipes
    ensures p in ws[j].pipes && |ws[j].pipes[p].data| <= CAPACITY
    ensures ws[i].pipes[p].data + Given(ws, ops, i, j, p) == Taken(ws, ops, i, j, p) + ws[j].pipes[p].data
    decreases j - i
  {
    hide Inv, Step;
    RunKeeps(ws, ops, j);
    if i < j {
      BytesConserved(ws, ops, i, j - 1, p);
      RunKeeps(ws, ops, j - 1);
      assert Step(ws[j - 1], ops[j - 1], ws[j - 1 + 1]);
      StepConserves(ws[j - 1], ops[j - 1], ws[j], p);
      Shift(ws[i].pipes[p].data, Given(ws, ops, i, j - 1, p), Taken(ws, ops, i, j - 1, p), ws[j - 1].pipes[p].data,
            In(ws[j - 1], ops[j - 1], p), Out(ws[j - 1], ops[j - 1], p), ws[j].pipes[p].data);
    }
    WithinCapacity(ws[j], p);
  }

  lemma Shift(a: seq<u8>, g: seq<u8>, t: seq<u8>, b: seq<u8>, x: seq<u8>, y: seq<u8>, c: seq<u8>)
    requires a + g == t + b && b + x == y + c
    ensures a + (g + x) == (t + y) + c
  {
    assert a + (g + x) == (a + g) + x == t + (b + x) == (t + y) + c;
  }

  /** Once a read through a pipe has returned end of file, so does every later read of at least one
      byte. */
  lemma EndOfFileForever(ws: seq<World>, ops: seq<Op>, i: nat, j: nat, p: PipeBuffer)
    requires Run(ws, ops) && i < j < |ops| && ops[i].Reads? && ops[j].Reads?
    requires Through(ws[i], ops[i], p) && Through(ws[j], ops[j], p)
    requires ops[i].got.EndOfFile? && ops[j].n > 0 && !ws[j].fds[ops[j].k].end.write
    ensures ops[j].got.EndOfFile?
  {
    RunProgress(ws, ops, i, j);
    hide Inv;
    assert Step(ws[i], ops[i], ws[i + 1]) && Step(ws[j], ops[j], ws[j + 1]);
  }

  /** Once a write through a pipe has returned EPIPE, so does every later write of at least one byte. */
  lemma BrokenPipeForever(ws: seq<World>, ops: seq<Op>, i: nat, j: nat, p: PipeBuffer)
    requires Run(ws, ops) && i < j < |ops| && ops[i].Writes? && ops[j].Writes?
    requires Through(ws[i], ops[i], p) && Through(ws[j], ops[j], p)
    requires ops[i].put.BrokenPipe? && ops[j].src != [] && ws[j].fds[ops[j].k].end.write
    ensures ops[j].put.BrokenPipe?
  {
    RunProgress(ws, ops, i, j);
    hide Inv;
    assert Step(ws[i], ops[i], ws[i + 1]) && Step(ws[j], ops[j], ws[j + 1]);
  }
}
