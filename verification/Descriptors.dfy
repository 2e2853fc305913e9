/** The descriptor tables of all processes, and the system calls that change them. */
module Descriptors {
  import opened Words
  import opened Bytes
  import opened Errno
  import opened Pipes
  import opened PipeWorlds
  import opened AddressSpaces

  const CLOEXEC: nat := 0x8_0000
  const NONBLOCK: nat := 0x800

  /** The file behind a descriptor; 0 to 2 fall back to the terminal until they are closed. */
  function HandleFor(fds: Table, closedFds: set<Key>, tty: bool, k: Key): Option<Slot> {
    if k in fds then Some(fds[k])
    else if k in closedFds then None
    else if 0 <= k.1 <= 2 && tty then Some(OtherFile)
    else None
  }

  /** What dup2 and dup3 return. */
  function DupResult(fds: Table, closedFds: set<Key>, tty: bool, pid: int, oldFd: int, newFd: int, flags: u32,
                     dup3: bool): int {
    var valid := HandleFor(fds, closedFds, tty, (pid, oldFd)).Some?;
    if newFd < 0 || oldFd < 0 || (flags != 0 && flags != CLOEXEC) then -EINVAL
    else if oldFd == newFd then (if !dup3 && valid then newFd else -EINVAL)
    else if !valid then -EBADF
    else newFd
  }

  function Renamed(s: set<Key>, parent: int, child: int): set<Key> {
    set k | k in s && k.0 == parent :: (child, k.1)
  }

  class DescriptorTables {
    const tty: bool
    var fds: Table
    var closedFds: set<Key>
    var cloexec: set<Key>
    ghost var pipes: set<PipeBuffer>
    ghost var handles: set<PipeHandle>

    ghost function State(): World
      reads this`fds, this`pipes, this`handles, pipes, handles
    {
      World(map p | p in pipes :: p.Value(), (set h | h in handles && !h.closed), fds)
    }

    ghost predicate Valid()
      reads this`fds, this`pipes, this`handles, pipes, handles
    {
      Inv(State())
    }

    /** The tables only take up new pipes and handles. */
    twostate predicate Grown()
      reads this`pipes, this`handles
    {
      fresh(pipes - old(pipes)) && fresh(handles - old(handles))
    }

    constructor (tty: bool)
      ensures Valid() && this.tty == tty && State() == World(map[], {}, map[]) && closedFds == {} && cloexec == {}
      ensures pipes == {} && handles == {}
    {
      this.tty := tty;
      fds, closedFds, cloexec, pipes, handles := map[], {}, {}, {}, {};
    }

    // -------------------------------------------------------------- one slot

    /** Puts a clone of an open handle into a free slot. */
    method Install(k: Key, h: PipeHandle)
      requires Valid() && k !in fds && h in handles && !h.closed
      modifies this`fds, this`handles, h.pipe
      ensures Valid() && Copied(old(State()), PipeEnd(h), k, State())
      ensures k in fds && fds == old(fds)[k := fds[k]] && Alike(PipeEnd(h), fds[k])
      ensures fresh(fds[k].end) && handles == old(handles) + {fds[k].end}
    {
      hide Inv;
      ghost var v, q := State(), h.pipe.Value();
      PipeOk(v, h);
      var clone := h.CloneHandle();
      fds := fds[k := PipeEnd(clone)];
      handles := handles + {clone};
      assert State().pipes == v.pipes[h.pipe := Ends(q, h.write, 1)];
      assert State().open == v.open + {clone};
      InstallKeeps(v, k, h, clone);
    }

    /** Closes the handle in a slot and empties the slot. */
    method CloseSlot(k: Key)
      requires Valid() && k in fds
      modifies this`fds, pipes, handles
      ensures Valid() && Emptied(old(State()), k, State())
      ensures fds == old(fds) - {k}
      ensures forall h :: h in handles ==> h.closed == (old(h.closed) || old(fds)[k] == PipeEnd(h))
    {
      hide Inv;
      ghost var v := State();
      ShedKeeps(v, k);
      if fds[k].PipeEnd? {
        SlotOpen(v, k);
        var h := fds[k].end;
        ghost var q := h.pipe.Value();
        h.Close();
        fds := fds - {k};
        assert State().pipes == v.pipes[h.pipe := Ends(q, h.write, -1)];
        assert State().open == v.open - {h};
      } else {
        fds := fds - {k};
        assert State().open == v.open && State().pipes == v.pipes;
      }
    }

    method PutOther(k: Key)
      requires Valid() && k !in fds
      modifies this`fds
      ensures Valid() && Copied(old(State()), OtherFile, k, State())
      ensures fds == old(fds)[k := OtherFile]
    {
      hide Inv;
      ghost var v := State();
      PutOtherKeeps(v, k);
      fds := fds[k := OtherFile];
      assert State().open == v.open && State().pipes == v.pipes;
    }

    /** Clones what is in slot `s` into the free slot `k`. */
    method Copy(s: Slot, k: Key)
      requires Valid() && k !in fds && (s.PipeEnd? ==> s.end in handles && !s.end.closed)
      modifies this`fds, this`handles, pipes
      ensures Valid() && Copied(old(State()), s, k, State())
      ensures k in fds && fds == old(fds)[k := fds[k]] && Alike(s, fds[k])
      ensures handles == old(handles) + if fds[k].PipeEnd? then {fds[k].end} else {}
      ensures fds[k].PipeEnd? ==> fresh(fds[k].end)
    {
      hide Inv;
      if s.PipeEnd? {
        PipeOk(State(), s.end);
        Install(k, s.end);
      } else {
        PutOther(k);
      }
    }

    // -------------------------------------------------------------- free descriptors

    predicate Taken(k: Key)
      reads this
    {
      k in fds || (k.1 <= 2 && tty && k !in closedFds)
    }

    /** The lowest free descriptor from `start` up. */
    method AllocateFd(pid: int, start: int) returns (fd: int)
      ensures 0 <= fd && start <= fd && !Taken((pid, fd)) && (pid, fd) !in fds
      ensures forall j :: 0 <= j < fd && start <= j ==> HandleFor(fds, closedFds, tty, (pid, j)).Some?
    {
      fd := if start < 0 then 0 else start;
      ghost var above := set k | k in fds && k.1 >= fd;
      while Taken((pid, fd))
        invariant 0 <= fd && start <= fd
        invariant above == set k | k in fds && k.1 >= fd
        invariant forall j :: 0 <= j < fd && start <= j ==> Taken((pid, j))
        decreases |above| + if fd <= 2 then 3 - fd else 0
      {
        ghost var next := set k | k in fds && k.1 >= fd + 1;
        FewerAbove(above, next, (pid, fd), (pid, fd) in fds);
        fd, above := fd + 1, next;
      }
    }

    // -------------------------------------------------------------- close

    method CloseDescriptor(k: Key) returns (ok: bool)
      requires Valid()
      modifies this`fds, this`closedFds, this`cloexec, pipes, handles
      ensures Valid() && Emptied(old(State()), k, State())
      ensures ok <==> k in old(fds)
      ensures fds == old(fds) - {k}
      ensures closedFds == if ok then old(closedFds) - {k} else old(closedFds)
      ensures cloexec == if ok then old(cloexec) - {k} else old(cloexec)
      ensures forall h :: h in handles ==> h.closed == (old(h.closed) || (ok && old(fds)[k] == PipeEnd(h)))
    {
      hide Inv;
      if k !in fds { return false; }
      CloseSlot(k);
      closedFds, cloexec := closedFds - {k}, cloexec - {k};
      ok := true;
    }

    method CloseTty(k: Key) returns (ok: bool)
      modifies this`closedFds
      ensures ok <==> 0 <= k.1 <= 2 && tty && k !in old(closedFds)
      ensures closedFds == if ok then old(closedFds) + {k} else old(closedFds)
    {
      if k.1 < 0 || k.1 > 2 || !tty || k in closedFds { return false; }
      closedFds := closedFds + {k};
      ok := true;
    }

    /** close(2): fails exactly when nothing is behind the descriptor. */
    method Close(k: Key) returns (r: int)
      requires Valid()
      modifies this`fds, this`closedFds, this`cloexec, pipes, handles
      ensures Valid() && Step(old(State()), Closes(k), State())
      ensures r == (if HandleFor(old(fds), old(closedFds), tty, k).Some? then 0 else -EBADF)
      ensures fds == old(fds) - {k} && (k !in old(fds) ==> HandleFor(fds, closedFds, tty, k).None?)
      ensures forall j :: j != k ==> HandleFor(fds, closedFds, tty, j) == HandleFor(old(fds), old(closedFds), tty, j)
      ensures cloexec - {k} == old(cloexec) - {k}
      ensures forall h :: h in handles ==> h.closed == (old(h.closed) || (k in old(fds) && old(fds)[k] == PipeEnd(h)))
    {
      hide Inv, Emptied;
      var ok := CloseDescriptor(k);
      if ok { return 0; }
      ok := CloseTty(k);
      r := if ok then 0 else -EBADF;
    }

    // -------------------------------------------------------------- dup

    /** Replaces what is in slot `k` by a clone of `s`, which is in another slot. */
    method Replace(k: Key, s: Slot) returns (ghost emptied: World)
      requires Valid() && (s.PipeEnd? ==> s.end in handles && !s.end.closed)
      requires s.PipeEnd? && k in fds ==> fds[k] != s
      modifies this`fds, this`handles, pipes, handles
      ensures Grown()
      ensures Valid() && Emptied(old(State()), k, emptied) && Copied(emptied, s, k, State())
      ensures k in fds && fds == old(fds)[k := fds[k]] && Alike(s, fds[k])
      ensures forall h :: h in old(handles) ==>
              h.closed == (old(h.closed) || (k in old(fds) && old(fds)[k] == PipeEnd(h)))
    {
      hide Inv, Alike, Copied;
      if k in fds {
        CloseSlot(k);
        emptied := State();
        Copy(s, k);
      } else {
        emptied := State();
        Copy(s, k);
      }
    }

    /** Replaces what is at `newFd` by a clone of what is at `oldFd`. */
    method DupInstall(pid: int, oldFd: int, newFd: int, close: bool) returns (ghost emptied: World)
      requires Valid() && oldFd != newFd
      requires HandleFor(fds, closedFds, tty, (pid, oldFd)).Some?
      modifies this`fds, this`handles, this`closedFds, this`cloexec, pipes, handles
      ensures Grown()
      ensures Valid()
      ensures var what := HandleFor(old(fds), old(closedFds), tty, (pid, oldFd)).value;
              Step(old(State()), Dups((pid, oldFd), what, (pid, newFd), emptied), State())
      ensures var k := (pid, newFd);
              && k in fds && fds == old(fds)[k := fds[k]] && closedFds == old(closedFds) - {k}
              && Alike(HandleFor(old(fds), old(closedFds), tty, (pid, oldFd)).value, fds[k])
              && cloexec == if close then old(cloexec) + {k} else old(cloexec) - {k}
      ensures var k := (pid, newFd);
              forall h :: h in old(handles) ==>
                h.closed == (old(h.closed) || (k in old(fds) && old(fds)[k] == PipeEnd(h)))
    {
      hide Inv, Alike, Copied, Emptied, Step;
      var k := (pid, newFd);
      var s := HandleFor(fds, closedFds, tty, (pid, oldFd)).value;
      ghost var v := State();
      SourceOpen(v, (pid, oldFd), k);
      emptied := Replace(k, s);
      StepDups(v, (pid, oldFd), s, k, emptied, State());
      closedFds, cloexec := closedFds - {k}, cloexec - {k};
      if close { cloexec := cloexec + {k}; }
    }

    /** dup2 and dup3. */
    method Dup(pid: int, oldFd: int, newFd: int, flags: u32, dup3: bool) returns (r: int, ghost op: Op)
      requires Valid()
      modifies this`fds, this`handles, this`closedFds, this`cloexec, pipes, handles
      ensures Grown()
      ensures Valid() && Step(old(State()), op, State())
      ensures r == DupResult(old(fds), old(closedFds), tty, pid, oldFd, newFd, flags, dup3)
      ensures var known := HandleFor(old(fds), old(closedFds), tty, (pid, oldFd)).Some?;
              && (r == -EINVAL <==> || newFd < 0 || oldFd < 0 || (flags != 0 && flags != CLOEXEC)
                                    || (oldFd == newFd && (dup3 || !known)))
              && (r == -EBADF <==> && newFd != oldFd && newFd >= 0 && oldFd >= 0
                                   && (flags == 0 || flags == CLOEXEC) && !known)
              && (r != -EINVAL && r != -EBADF ==> r == newFd)
      ensures r < 0 || oldFd == newFd ==> op == Stays && closedFds == old(closedFds) && cloexec == old(cloexec)
      ensures r >= 0 && oldFd != newFd ==>
                var k, what := (pid, newFd), HandleFor(old(fds), old(closedFds), tty, (pid, oldFd)).value;
                && op.Dups? && op.from == (pid, oldFd) && op.what == what && op.dst == k
                && k in fds && fds == old(fds)[k := fds[k]] && Alike(what, fds[k]) && closedFds == old(closedFds) - {k}
                && cloexec == if dup3 && flags == CLOEXEC then old(cloexec) + {k} else old(cloexec) - {k}
    {
      hide Inv, Alike, Copied, Emptied;
      op := Stays;
      if newFd < 0 || oldFd < 0 || (flags != 0 && flags != CLOEXEC) { return -EINVAL, op; }
      var what := HandleFor(fds, closedFds, tty, (pid, oldFd));
      if oldFd == newFd { return if !dup3 && what.Some? then newFd else -EINVAL, op; }
      if what.None? { return -EBADF, op; }
      ghost var emptied := DupInstall(pid, oldFd, newFd, dup3 && flags == CLOEXEC);
      r, op := newFd, Dups((pid, oldFd), what.value, (pid, newFd), emptied);
    }

    /** fcntl with F_DUPFD or F_DUPFD_CLOEXEC: a clone in the lowest free slot from `least` up. */
    method FcntlDup(pid: int, fd: int, least: u32, close: bool) returns (r: int, ghost op: Op)
      requires Valid()
      modifies this`fds, this`handles, this`closedFds, this`cloexec, pipes
      ensures Grown()
      ensures Valid() && Step(old(State()), op, State())
      ensures least > 0x10_0000 ==> r == -EINVAL
      ensures least <= 0x10_0000 && HandleFor(old(fds), old(closedFds), tty, (pid, fd)).None? ==> r == -EBADF
      ensures r < 0 ==> op == Stays && closedFds == old(closedFds) && cloexec == old(cloexec)
      ensures least <= 0x10_0000 && HandleFor(old(fds), old(closedFds), tty, (pid, fd)).Some? ==>
                var k, what := (pid, r), HandleFor(old(fds), old(closedFds), tty, (pid, fd)).value;
                && op == Dups((pid, fd), what, k, old(State()))
                && r >= least && k !in old(fds) && k in fds && fds == old(fds)[k := fds[k]] && Alike(what, fds[k])
                && (forall j :: least <= j < r ==> HandleFor(old(fds), old(closedFds), tty, (pid, j)).Some?)
                && closedFds == old(closedFds) - {k}
                && cloexec == if close then old(cloexec) + {k} else old(cloexec) - {k}
    {
      hide Inv, Alike, Copied, Step;
      op := Stays;
      ghost var v := State();
      StepStays(v);
      if least > 0x10_0000 { return -EINVAL, op; }
      var s := HandleFor(fds, closedFds, tty, (pid, fd));
      if s.None? { return -EBADF, op; }
      r := AllocateFd(pid, least);
      SourceOpen(State(), (pid, fd), (pid, r));
      op := Dups((pid, fd), s.value, (pid, r), v);
      Copy(s.value, (pid, r));
      StepDups(v, (pid, fd), s.value, (pid, r), v, State());
      closedFds, cloexec := closedFds - {(pid, r)}, cloexec - {(pid, r)};
      if close { cloexec := cloexec + {(pid, r)}; }
    }

    // -------------------------------------------------------------- pipe

    /** Makes a pipe with its ends in two free slots. */
    method CreatePipe(r: Key, w: Key)
      requires Valid() && r !in fds && w !in fds && r != w
      modifies this`fds, this`pipes, this`handles
      ensures Valid() && PipeMade(old(State()), r, w, State())
      ensures r in fds && w in fds && fds == old(fds)[r := fds[r]][w := fds[w]]
      ensures fds[r].PipeEnd? && fds[w].PipeEnd? && fresh(fds[r].end) && fresh(fds[w].end) && fresh(fds[r].end.pipe)
      ensures pipes == old(pipes) + {fds[r].end.pipe} && handles == old(handles) + {fds[r].end, fds[w].end}
    {
      hide Inv;
      ghost var v := State();
      var p := new PipeBuffer();
      var reader := new PipeHandle(p, false);
      var writer := new PipeHandle(p, true);
      fds := fds[r := PipeEnd(reader)][w := PipeEnd(writer)];
      pipes, handles := pipes + {p}, handles + {reader, writer};
      assert State().pipes == v.pipes[p := Pipe([], 1, 1)];
      assert State().open == v.open + {reader, writer};
      CreateKeeps(v, r, w, p, reader, writer);
    }

    /** Takes both ends of a new pipe away again. */
    method UndoPipe(r: Key, w: Key) returns (ghost half: World)
      requires Valid() && r in fds && w in fds && r != w
      modifies this`fds, this`cloexec, pipes, handles
      ensures Valid() && Emptied(old(State()), r, half) && Emptied(half, w, State())
      ensures fds == old(fds) - {r, w} && cloexec == old(cloexec) - {r, w}
    {
      hide Inv, Emptied;
      CloseSlot(r);
      half := State();
      CloseSlot(w);
      cloexec := cloexec - {r, w};
    }

    /** The two lowest free descriptors of a process. */
    method AllocatePair(pid: int) returns (r: int, w: int)
      ensures 0 <= r < w && (pid, r) !in fds && (pid, w) !in fds
      ensures forall j :: 0 <= j < w && j != r ==> HandleFor(fds, closedFds, tty, (pid, j)).Some?
    {
      r := AllocateFd(pid, 0);
      w := AllocateFd(pid, r + 1);
    }

    /** pipe and pipe2: stores the two descriptor numbers at `addr`; a fault undoes the pipe. */
    method MakePipe(pid: int, space: AddressSpace, addr: u32, flags: u32)
      returns (result: int, r: int, w: int, ghost op: Op)
      requires Valid() && space.Sized()
      modifies this`fds, this`pipes, this`handles, this`cloexec, pipes, handles, space.data
      ensures Grown()
      ensures Valid() && Step(old(State()), op, State()) && closedFds == old(closedFds)
      ensures result == -EINVAL <==> flags != 0 && flags != 0x800 && flags != 0x8_0000 && flags != 0x8_0800
      ensures result == if !KnownFlags(flags) then -EINVAL
                        else if space.CanAccess(addr, 4, PROT_WRITE)
                          && space.CanAccess(Add32(addr, 4), 4, PROT_WRITE) then 0 else -EFAULT
      ensures result == -EINVAL ==> op == Stays && cloexec == old(cloexec) && space.data[..] == old(space.data[..])
      ensures result != -EINVAL ==>
                && 0 <= r < w && (pid, r) !in old(fds) && (pid, w) !in old(fds)
                && forall j :: 0 <= j < w && j != r ==> HandleFor(old(fds), closedFds, tty, (pid, j)).Some?
      ensures result == -EFAULT ==>
                && op.Undoes? && op.r == (pid, r) && op.w == (pid, w) && fds == old(fds)
                && cloexec == old(cloexec) - {(pid, r), (pid, w)}
      ensures result == -EFAULT && !space.CanAccess(addr, 4, PROT_WRITE) ==> space.data[..] == old(space.data[..])
      ensures result == -EFAULT && space.CanAccess(addr, 4, PROT_WRITE) ==>
                space.data[..] == Splice(old(space.data[..]), addr, Put32(Add32(r, 0)))
      ensures result == 0 ==>
                && op == Makes((pid, r), (pid, w))
                && cloexec == (if flags >= CLOEXEC then old(cloexec) + {(pid, r), (pid, w)} else old(cloexec))
                && space.data[..] == Splice(Splice(old(space.data[..]), addr, Put32(Add32(r, 0))), Add32(addr, 4),
                                            Put32(Add32(w, 0)))
    {
      hide Inv, PipeMade, Emptied, Splice, Put32, Step;
      ghost var v := State();
      StepStays(v);
      op, r, w := Stays, 0, 0;
      if !KnownFlags(flags) { return -EINVAL, r, w, op; }
      r, w := OpenPipe(pid, flags >= CLOEXEC);
      ghost var made := State();
      var stored := StorePair(space, addr, Add32(r, 0), Add32(w, 0));
      if !stored {
        ghost var half := UndoPipe((pid, r), (pid, w));
        StepUndoes(v, (pid, r), (pid, w), made, half, State());
        return -EFAULT, r, w, Undoes((pid, r), (pid, w), made, half);
      }
      StepMakes(v, (pid, r), (pid, w), State());
      result, op := 0, Makes((pid, r), (pid, w));
    }

    /** A new pipe in the two lowest free descriptors. */
    method OpenPipe(pid: int, close: bool) returns (r: int, w: int)
      requires Valid()
      modifies this`fds, this`pipes, this`handles, this`cloexec
      ensures Valid() && 0 <= r < w && PipeMade(old(State()), (pid, r), (pid, w), State())
      ensures (pid, r) !in old(fds) && (pid, w) !in old(fds) && (pid, r) in fds && (pid, w) in fds
      ensures forall j :: 0 <= j < w && j != r ==> HandleFor(old(fds), closedFds, tty, (pid, j)).Some?
      ensures fds - {(pid, r), (pid, w)} == old(fds)
      ensures cloexec == if close then old(cloexec) + {(pid, r), (pid, w)} else old(cloexec)
      ensures Grown()
    {
      hide Inv, PipeMade;
      ghost var t := fds;
      r, w := AllocatePair(pid);
      CreatePipe((pid, r), (pid, w));
      assert fds - {(pid, r), (pid, w)} == t;
      if close { cloexec := cloexec + {(pid, r), (pid, w)}; }
    }

    static method StorePair(space: AddressSpace, addr: u32, r: u32, w: u32) returns (ok: bool)
      requires space.Sized()
      modifies space.data
      ensures ok <==> space.CanAccess(addr, 4, PROT_WRITE) && space.CanAccess(Add32(addr, 4), 4, PROT_WRITE)
      ensures ok ==> space.data[..] == Splice(Splice(old(space.data[..]), addr, Put32(r)), Add32(addr, 4), Put32(w))
      ensures !ok && !space.CanAccess(addr, 4, PROT_WRITE) ==> space.data[..] == old(space.data[..])
      ensures !ok && space.CanAccess(addr, 4, PROT_WRITE) ==>
                space.data[..] == Splice(old(space.data[..]), addr, Put32(r))
    {
      ok := space.Write32(addr, r);
      if ok { ok := space.Write32(Add32(addr, 4), w); }
    }

    // -------------------------------------------------------------- open, fork, exec, exit

    /** open of anything that is not a pipe. */
    method Open(pid: int) returns (fd: int)
      requires Valid()
      modifies this`fds, this`closedFds
      ensures Valid() && Step(old(State()), Opens((pid, fd)), State())
      ensures fd >= 0 && (pid, fd) !in old(fds) && fds == old(fds)[(pid, fd) := OtherFile]
      ensures forall j :: 0 <= j < fd ==> HandleFor(old(fds), old(closedFds), tty, (pid, j)).Some?
      ensures closedFds == old(closedFds) - {(pid, fd)}
    {
      hide Inv;
      fd := AllocateFd(pid, 0);
      PutOther((pid, fd));
      closedFds := closedFds - {(pid, fd)};
    }

    /** fork: the child, a process not seen before, gets a clone of every descriptor. */
    method Fork(parent: int, child: int) returns (ghost order: seq<Key>, ghost mids: seq<World>)
      requires Valid() && parent != child && Unused(fds, child)
      modifies this`fds, this`handles, this`closedFds, this`cloexec, pipes
      ensures Grown()
      ensures Valid() && Step(old(State()), Forks(parent, child, order, mids), State())
      ensures Forked(old(fds), fds, Owned(old(fds).Keys, parent), child)
      ensures closedFds == old(closedFds) + Renamed(old(closedFds), parent, child)
      ensures cloexec == old(cloexec) + Renamed(old(cloexec), parent, child)
    {
      hide Inv, Forked, Step, Renamed;
      order, mids := CloneAll(parent, child);
      closedFds := closedFds + Renamed(closedFds, parent, child);
      cloexec := cloexec + Renamed(cloexec, parent, child);
    }

    method CloneAll(parent: int, child: int) returns (ghost order: seq<Key>, ghost mids: seq<World>)
      requires Valid() && parent != child && Unused(fds, child)
      modifies this`fds, this`handles, pipes
      ensures Grown()
      ensures Valid() && Step(old(State()), Forks(parent, child, order, mids), State())
      ensures Forked(old(fds), fds, Owned(old(fds).Keys, parent), child)
    {
      hide Inv, Forked, CopyAll, Copied, Step, Visited;
      ghost var t := fds;
      var todo := Owned(fds.Keys, parent);
      order, mids := [], [State()];
      CopyNone(child, State());
      ForkedStart(t, child);
      VisitStart(todo);
      while todo != {}
        invariant Valid() && old(pipes) == pipes && fresh(handles - old(handles))
        invariant CopyAll(order, child, mids) && |mids| == |order| + 1 && mids[0] == old(State())
                  && mids[|order|] == State()
        invariant Visited(order, todo, Owned(t.Keys, parent)) && Forked(t, fds, Members(order), child)
      {
        var k :| k in todo;
        ghost var v, f := State(), fds;
        VisitNext(order, todo, Owned(t.Keys, parent), k);
        ForkedFree(t, f, Members(order), child, k);
        SourceOpen(v, k, (child, k.1));
        Copy(fds[k], (child, k.1));
        ForkedStep(t, f, fds, Members(order), child, k);
        CopyMore(order, child, mids, k, State());
        assert Members(order + [k]) == Members(order) + {k};
        todo, order, mids := todo - {k}, order + [k], mids + [State()];
      }
      VisitedAll(order, Owned(t.Keys, parent));
      StepForks(old(State()), parent, child, order, mids, State());
    }

    /** A process exits: all its descriptors are closed, in any order. */
    method CloseOnExit(pid: int) returns (ghost order: seq<Key>, ghost mids: seq<World>)
      requires Valid()
      modifies this`fds, pipes, handles
      ensures Valid() && Step(old(State()), Sheds(Owned(old(fds).Keys, pid), order, mids), State())
      ensures fds == old(fds) - Owned(old(fds).Keys, pid)
      ensures forall h :: h in handles ==>
              h.closed == (old(h.closed) || ClosedBy(old(fds), Owned(old(fds).Keys, pid), h))
    {
      order, mids := CloseAll(Owned(fds.Keys, pid));
    }

    /** A process executes a new program: the descriptors marked close-on-exec are closed. */
    method CloseCloexec(pid: int) returns (ghost order: seq<Key>, ghost mids: seq<World>)
      requires Valid()
      modifies this`fds, this`closedFds, this`cloexec, pipes, handles
      ensures Valid() && Step(old(State()), Sheds(Owned(old(cloexec), pid), order, mids), State())
      ensures var marked := Owned(old(cloexec), pid);
              fds == old(fds) - marked && cloexec == old(cloexec) - marked && closedFds == old(closedFds) - marked
      ensures forall h :: h in handles ==>
              h.closed == (old(h.closed) || ClosedBy(old(fds), Owned(old(cloexec), pid), h))
    {
      hide Inv, ClosedBy, ShedAll, Step;
      var marked := Owned(cloexec, pid);
      order, mids := CloseAll(marked);
      cloexec, closedFds := cloexec - marked, closedFds - marked;
    }

    method CloseAll(keys: set<Key>) returns (ghost order: seq<Key>, ghost mids: seq<World>)
      requires Valid()
      modifies this`fds, pipes, handles
      ensures Valid() && Step(old(State()), Sheds(keys, order, mids), State())
      ensures fds == old(fds) - keys
      ensures forall h :: h in handles ==> h.closed == (old(h.closed) || ClosedBy(old(fds), keys, h))
    {
      hide Inv, ShedAll, Step, Visited;
      ghost var t := fds;
      var todo := keys;
      order, mids := [], [State()];
      ShedNone(State());
      VisitStart(todo);
      while todo != {}
        invariant Valid() && ShedAll(order, mids) && |mids| == |order| + 1 && mids[0] == old(State())
                  && mids[|order|] == State()
        invariant Visited(order, todo, keys) && fds == t - (keys - todo)
        invariant forall h :: h in handles ==> h.closed == (old(h.closed) || ClosedBy(t, keys - todo, h))
      {
        var k :| k in todo;
        VisitNext(order, todo, keys, k);
        if k in fds { CloseSlot(k); }
        ShedMore(order, mids, k, State());
        assert keys - (todo - {k}) == (keys - todo) + {k};
        todo, order, mids := todo - {k}, order + [k], mids + [State()];
      }
      VisitedAll(order, keys);
      StepSheds(old(State()), keys, order, mids, State());
      assert keys - todo == keys;
    }

    // -------------------------------------------------------------- read and write

    /** A read through a pipe descriptor. */
    method Read(k: Key, n: nat) returns (r: ReadResult)
      requires Valid() && k in fds && fds[k].PipeEnd?
      modifies pipes
      ensures Valid() && Step(old(State()), Reads(k, n, r), State())
    {
      hide Inv, Step, ReadOf, AfterRead, WriteOf, AfterWrite;
      ghost var v := State();
      SlotOpen(v, k);
      var h := fds[k].end;
      r := h.ReadNonblocking(n);
      assert State().pipes == v.pipes[h.pipe := h.pipe.Value()];
      assert State().open == v.open;
      StepReads(v, k, n, r, State());
      StepKeeps(v, Reads(k, n, r), State());
    }

    /** A write through a pipe descriptor. */
    method Write(k: Key, src: seq<u8>) returns (r: WriteResult)
      requires Valid() && k in fds && fds[k].PipeEnd?
      modifies pipes
      ensures Valid() && Step(old(State()), Writes(k, src, r), State())
    {
      hide Inv, Step, ReadOf, AfterRead, WriteOf, AfterWrite;
      ghost var v := State();
      SlotOpen(v, k);
      var h := fds[k].end;
      PipeOk(v, h);
      r := h.WriteNonblocking(src);
      assert State().pipes == v.pipes[h.pipe := h.pipe.Value()];
      assert State().open == v.open;
      StepWrites(v, k, src, r, State());
      StepKeeps(v, Writes(k, src, r), State());
    }
  }

  predicate KnownFlags(flags: u32) {
    flags in {0, NONBLOCK, CLOEXEC, NONBLOCK + CLOEXEC}
  }

  /** The handle is in one of the slots. */
  ghost predicate ClosedBy(t: Table, keys: set<Key>, h: PipeHandle) {
    exists k :: k in keys && k in t && t[k] == PipeEnd(h)
  }

  lemma FewerAbove(above: set<Key>, next: set<Key>, k: Key, present: bool)
    requires next <= above && (present ==> k in above && k !in next)
    ensures |next| <= |above| && (present ==> |next| < |above|)
  {
    var rest := above - next;
    assert above == next + rest;
    if present { assert k in rest; }
  }

  /** The handle in one slot is open, and is not the one in another. */
  lemma SourceOpen(w: World, j: Key, k: Key)
    requires Inv(w) && j != k
    ensures j in w.fds && w.fds[j].PipeEnd? ==> w.fds[j].end in w.open
    ensures j in w.fds && w.fds[j].PipeEnd? && k in w.fds ==> w.fds[k] != w.fds[j]
  {
  }

  // ---------------------------------------------------------------- loops over a table

  /** Some of the keys have been visited, once each, and the rest are to be. */
  ghost predicate Visited(order: seq<Key>, todo: set<Key>, keys: set<Key>) {
    && (forall i, j :: 0 <= i < j < |order| ==> order[i] != order[j])
    && (forall k :: k in keys <==> k in order || k in todo) && (forall k :: k in order ==> k !in todo)
  }

  lemma VisitStart(keys: set<Key>)
    ensures Visited([], keys, keys)
  {
  }

  lemma VisitNext(order: seq<Key>, todo: set<Key>, keys: set<Key>, k: Key)
    requires Visited(order, todo, keys) && k in todo
    ensures Visited(order + [k], todo - {k}, keys) && k !in order && k in keys && forall j :: j in order ==> j in keys
  {
  }

  lemma VisitedAll(order: seq<Key>, keys: set<Key>)
    requires Visited(order, {}, keys)
    ensures Members(order) == keys && forall i, j :: 0 <= i < j < |order| ==> order[i] != order[j]
  {
  }

  lemma CopyNone(child: int, w: World)
    ensures CopyAll([], child, [w])
  {
  }

  lemma CopyMore(order: seq<Key>, child: int, mids: seq<World>, k: Key, x: World)
    requires CopyAll(order, child, mids) && k in mids[|order|].fds
             && Copied(mids[|order|], mids[|order|].fds[k], (child, k.1), x)
    ensures CopyAll(order + [k], child, mids + [x])
  {
    var o, m := order + [k], mids + [x];
    forall i | 0 <= i < |o| ensures CopyOne(o[i], child, m[i], m[i + 1]) {
      if i < |order| { assert CopyOne(order[i], child, mids[i], mids[i + 1]); }
    }
  }

  lemma ShedNone(w: World)
    ensures ShedAll([], [w])
  {
  }

  lemma ShedMore(order: seq<Key>, mids: seq<World>, k: Key, x: World)
    requires ShedAll(order, mids) && Emptied(mids[|order|], k, x)
    ensures ShedAll(order + [k], mids + [x])
  {
    var o, m := order + [k], mids + [x];
    forall i | 0 <= i < |o| ensures Emptied(m[i], o[i], m[i + 1]) {
      if i < |order| { assert Emptied(mids[i], order[i], mids[i + 1]); }
    }
  }

  /** The child has clones of the given descriptors, each on the same file, and nothing else has
      changed. */
  ghost predicate Forked(t: Table, u: Table, done: set<Key>, child: int) {
    && done <= t.Keys
    && u.Keys == t.Keys + (set k | k in done :: (child, k.1))
    && (forall k :: k in t ==> u[k] == t[k])
    && (forall k :: k in done ==> (child, k.1) in u && Alike(t[k], u[(child, k.1)]))
  }

  lemma ForkedStart(t: Table, child: int)
    ensures Forked(t, t, Members([]), child)
  {
  }

  lemma ForkedFree(t: Table, u: Table, done: set<Key>, child: int, k: Key)
    requires Forked(t, u, done, child) && Unused(t, child) && k in t && k !in done && k.0 != child
    requires forall j :: j in done ==> j.0 == k.0
    ensures k in u && (child, k.1) !in u
  {
  }

  lemma ForkedStep(t: Table, u: Table, x: Table, done: set<Key>, child: int, k: Key)
    requires Forked(t, u, done, child) && k in t && k in u && (child, k.1) !in u
    requires (child, k.1) in x && x == u[(child, k.1) := x[(child, k.1)]] && Alike(u[k], x[(child, k.1)])
    ensures Forked(t, x, done + {k}, child)
  {
    var c := (child, k.1);
    assert x.Keys == u.Keys + {c};
    assert (set j | j in done + {k} :: (child, j.1)) == (set j | j in done :: (child, j.1)) + {c};
  }
}
