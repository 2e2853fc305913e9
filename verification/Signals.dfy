/** Signal delivery and rt_sigreturn: the frame that saves a context on the guest stack, and the
    runs in which handlers are interrupted by further handlers. */
module Signals {
  import opened Words
  import opened Errno
  import opened Bytes
  import opened Bits
  import opened AddressSpaces
  import opened GuestWords

  const EAX: nat := 0
  const ESP: nat := 4
  const FRAME_MAGIC: u32 := 0x4953_4847
  const FRAME_VERSION: u32 := 1
  const FRAME_SIZE: nat := 176
  const FRAME_WORDS: nat := 42
  const SA_SIGINFO: nat := 4
  const SA_NODEFER: nat := 0x4000_0000

  datatype Action = Action(handler: u32, flags: u32, restorer: u32, mask: u64)

  /** Everything a signal frame saves: the registers, the segments, the x87 state with its slots as
      64-bit words, and the signal mask. */
  datatype Context = Context(
    regs: seq<u32>, eip: u32, eflags: u32, mask: u64,
    fsBase: u32, gsBase: u32, fsSelector: u16, gsSelector: u16,
    fpuTop: u8, fpuCount: u8, fpuStatus: u16, fpuControl: u16, fpu: seq<u64>)
  {
    predicate Valid() {
      |regs| == 8 && |fpu| == 8 && fpuTop <= 7 && fpuCount <= 8
    }
  }

  // ---------------------------------------------------------------- the frame

  function Low(x: u64): u32 { x % 0x1_0000_0000 }

  function High(x: u64): u32 { x / 0x1_0000_0000 }

  function Join(lo: u32, hi: u32): u64 { lo + hi * 0x1_0000_0000 }

  /** 64-bit values as pairs of words, low half first. */
  function Halves(xs: seq<u64>): (ws: seq<u32>)
    ensures |ws| == 2 * |xs|
  {
    if xs == [] then [] else [Low(xs[0]), High(xs[0])] + Halves(xs[1..])
  }

  function Joined(ws: seq<u32>): (xs: seq<u64>)
    requires |ws| % 2 == 0
    ensures |xs| == |ws| / 2
  {
    if ws == [] then [] else [Join(ws[0], ws[1])] + Joined(ws[2..])
  }

  lemma {:induction false} JoinHalves(xs: seq<u64>)
    ensures Joined(Halves(xs)) == xs
  {
    if xs != [] {
      JoinHalves(xs[1..]);
      assert Halves(xs)[2..] == Halves(xs[1..]);
      assert xs == [xs[0]] + xs[1..];
    }
  }

  /** The saved context, from offset 20 of the frame. */
  function ContextWords(c: Context): (ws: seq<u32>)
    requires c.Valid()
    ensures |ws| == 37
  {
    [c.eip, c.eflags, c.regs[ESP], Low(c.mask), High(c.mask), c.fsBase, c.gsBase, c.fsSelector, c.gsSelector,
     c.fpuTop, c.fpuCount, c.fpuStatus, c.fpuControl] + c.regs + Halves(c.fpu)
  }

  function FrameWords(c: Context, signal: u32, restorer: u32): (ws: seq<u32>)
    requires c.Valid()
    ensures |ws| == FRAME_WORDS
  {
    [restorer, signal, FRAME_MAGIC, FRAME_VERSION, signal] + ContextWords(c)
  }

  /** The checks rt_sigreturn makes on the saved words. */
  predicate Sound(ws: seq<u32>)
    requires |ws| == 37
  {
    ws[2] != 0 && ws[9] <= 7 && ws[10] <= 8 && ws[7] <= 0xffff && ws[8] <= 0xffff
  }

  function Restored(ws: seq<u32>): (c: Context)
    requires |ws| == 37 && Sound(ws)
    ensures c.Valid()
  {
    Context(
      ws[13..21][ESP := ws[2]], ws[0], ws[1], Join(ws[3], ws[4]), ws[5], ws[6], ws[7], ws[8],
      ws[9], ws[10], ws[11] % 0x1_0000, ws[12] % 0x1_0000, Joined(ws[21..37]))
  }

  /** Decoding undoes encoding, except that a stack pointer of 0 is refused. */
  lemma ContextRoundTrip(c: Context)
    requires c.Valid()
    ensures Sound(ContextWords(c)) <==> c.regs[ESP] != 0
    ensures Sound(ContextWords(c)) ==> Restored(ContextWords(c)) == c
  {
    var ws := ContextWords(c);
    JoinHalves(c.fpu);
    assert ws[13..21] == c.regs;
    assert ws[21..37] == Halves(c.fpu);
    assert c.regs[ESP := c.regs[ESP]] == c.regs;
  }

  // ---------------------------------------------------------------- delivery

  function FrameBase(esp: u32): (base: u32)
    requires esp >= FRAME_SIZE + 32
    ensures base % 16 == 0 && base + FRAME_SIZE + 16 <= esp
  {
    var b := esp - FRAME_SIZE - 16;
    b - b % 16
  }

  function NewMask(mask: u64, signal: u32, action: Action): nat
    requires 1 <= signal <= 64
  {
    var m := Or(mask, action.mask);
    if HasFlag(action.flags, SA_NODEFER) then m else Or(m, Pow2(signal - 1))
  }

  /** The new mask blocks what was blocked, what the action blocks and, unless SA_NODEFER is set, the
      signal itself. */
  lemma NewMaskBits(mask: u64, signal: u32, action: Action, k: nat)
    requires 1 <= signal <= 64
    ensures NewMask(mask, signal, action) < 0x1_0000_0000_0000_0000
    ensures Bit(NewMask(mask, signal, action), k) <==>
            Bit(mask, k) || Bit(action.mask, k) || (!HasFlag(action.flags, SA_NODEFER) && k == signal - 1)
  {
    Pow2Values();
    OrBound(mask, action.mask, 64);
    OrBit(mask, action.mask, k);
    Pow2Less(signal - 1, 64);
    OrBound(Or(mask, action.mask), Pow2(signal - 1), 64);
    OrBit(Or(mask, action.mask), Pow2(signal - 1), k);
    Pow2Bit(signal - 1, k);
  }

  predicate Accepted(c: Context, signal: u32, action: Action)
    requires c.Valid()
  {
    && 1 <= signal <= 64 && action.handler != 0 && !HasFlag(action.flags, SA_SIGINFO) && action.restorer != 0
    && c.regs[ESP] >= FRAME_SIZE + 32
  }

  /** Delivery succeeds: the request is acceptable and the frame's words can be written. */
  ghost predicate Deliverable(v: View, c: Context, signal: u32, action: Action)
    requires c.Valid()
  {
    Accepted(c, signal, action) && Writable(v, FrameBase(c.regs[ESP]), FRAME_WORDS)
  }

  /** The context the handler starts in. */
  function Handling(c: Context, signal: u32, action: Action): (r: Context)
    requires c.Valid() && Accepted(c, signal, action)
    ensures r.Valid()
  {
    NewMaskBits(c.mask, signal, action, 0);
    c.(regs := c.regs[ESP := FrameBase(c.regs[ESP])], eip := action.handler, mask := NewMask(c.mask, signal, action))
  }

  /** Where a handler starts: at the action's address, with the stack pointer at the frame's base, from 192 to
      207 bytes below the old one and aligned to 16, where its return address, the restorer, and its
      argument, the signal's number, are; the mask blocks what it should, and nothing else differs. */
  ghost predicate Starts(c: Context, signal: u32, action: Action, r: Context, d: seq<u8>)
    requires c.Valid() && 1 <= signal <= 64
  {
    && r == c.(regs := r.regs, eip := action.handler, mask := r.mask)
    && r.Valid() && (forall i :: 0 <= i < 8 && i != ESP ==> r.regs[i] == c.regs[i])
    && var esp := r.regs[ESP];
    && esp % 16 == 0 && esp + 192 <= c.regs[ESP] < esp + 208
    && esp + 8 <= |d| && Get32(d, esp) == action.restorer && Get32(d, esp + 4) == signal
    && forall k: nat :: Bit(r.mask, k) <==>
         Bit(c.mask, k) || Bit(action.mask, k) || (!HasFlag(action.flags, SA_NODEFER) && k == signal - 1)
  }

  lemma HandlerStarts(c: Context, signal: u32, action: Action, d0: seq<u8>, d: seq<u8>)
    requires c.Valid() && Accepted(c, signal, action)
    requires Wrote(d0, d, FrameBase(c.regs[ESP]), FrameWords(c, signal, action.restorer))
    ensures Starts(c, signal, action, Handling(c, signal, action), d)
  {
    hide Get32, Encode, Splice, ContextWords, NewMask, Bit;
    var base, ws := FrameBase(c.regs[ESP]), FrameWords(c, signal, action.restorer);
    WroteWords(d0, d, base, ws);
    assert WordAt(d, base, 0) == ws[0] && WordAt(d, base, 1) == ws[1];
    forall k: nat
      ensures Bit(NewMask(c.mask, signal, action), k) <==>
              Bit(c.mask, k) || Bit(action.mask, k) || (!HasFlag(action.flags, SA_NODEFER) && k == signal - 1)
    {
      NewMaskBits(c.mask, signal, action, k);
    }
  }

  /** The layout of a frame in guest memory. */
  lemma FrameLayout(d: seq<u8>, base: nat, c: Context, signal: u32, restorer: u32)
    requires c.Valid() && WordsAt(d, base, FrameWords(c, signal, restorer))
    ensures base + 168 <= |d|
    ensures Get32(d, base) == restorer && Get32(d, base + 4) == signal && Get32(d, base + 16) == signal
    ensures Get32(d, base + 8) == 0x4953_4847 && Get32(d, base + 12) == 1
    ensures Get32(d, base + 20) == c.eip && Get32(d, base + 24) == c.eflags && Get32(d, base + 28) == c.regs[ESP]
    ensures Get32(d, base + 32) + (Get32(d, base + 36) as int) * 0x1_0000_0000 == c.mask
    ensures Get32(d, base + 40) == c.fsBase && Get32(d, base + 44) == c.gsBase
    ensures Get32(d, base + 48) == c.fsSelector && Get32(d, base + 52) == c.gsSelector
    ensures Get32(d, base + 56) == c.fpuTop && Get32(d, base + 60) == c.fpuCount
    ensures Get32(d, base + 64) == c.fpuStatus && Get32(d, base + 68) == c.fpuControl
    ensures forall i :: 0 <= i < 8 ==> Get32(d, base + 72 + 4 * i) == c.regs[i]
    ensures forall i :: 0 <= i < 8 ==>
              Get32(d, base + 104 + 8 * i) + (Get32(d, base + 108 + 8 * i) as int) * 0x1_0000_0000 == c.fpu[i]
  {
    hide Get32;
    var ws := FrameWords(c, signal, restorer);
    hide FrameWords;
    forall i | 0 <= i < FRAME_WORDS ensures Get32(d, base + 4 * i) == ws[i] { assert WordAt(d, base, i) == ws[i]; }
    LayoutWords(d, base, ws);
    FrameContext(c, signal, restorer);
  }

  /** The order of the words of a frame. */
  lemma FrameContext(c: Context, signal: u32, restorer: u32)
    requires c.Valid()
    ensures var ws := FrameWords(c, signal, restorer);
            && ws[0] == restorer && ws[1] == signal && ws[2] == 0x4953_4847 && ws[3] == 1 && ws[4] == signal
            && ws[5] == c.eip && ws[6] == c.eflags && ws[7] == c.regs[ESP]
            && ws[8] + (ws[9] as int) * 0x1_0000_0000 == c.mask && ws[10] == c.fsBase && ws[11] == c.gsBase
            && ws[12] == c.fsSelector && ws[13] == c.gsSelector && ws[14] == c.fpuTop && ws[15] == c.fpuCount
            && ws[16] == c.fpuStatus && ws[17] == c.fpuControl
            && (forall i :: 0 <= i < 8 ==> ws[18 + i] == c.regs[i])
            && forall i :: 0 <= i < 8 ==> ws[26 + 2 * i] + (ws[27 + 2 * i] as int) * 0x1_0000_0000 == c.fpu[i]
  {
    var ws := FrameWords(c, signal, restorer);
    forall i | 0 <= i < 8 ensures ws[26 + 2 * i] + (ws[27 + 2 * i] as int) * 0x1_0000_0000 == c.fpu[i] {
      HalvesAt(c.fpu, i);
      assert ws[26 + 2 * i] == Halves(c.fpu)[2 * i] && ws[27 + 2 * i] == Halves(c.fpu)[2 * i + 1];
    }
  }

  lemma LayoutWords(d: seq<u8>, base: nat, ws: seq<u32>)
    requires |ws| == FRAME_WORDS && base + 168 <= |d| && forall i :: 0 <= i < FRAME_WORDS ==>
             Get32(d, base + 4 * i) == ws[i]
    ensures Get32(d, base) == ws[0] && Get32(d, base + 4) == ws[1] && Get32(d, base + 8) == ws[2]
    ensures Get32(d, base + 12) == ws[3] && Get32(d, base + 16) == ws[4] && Get32(d, base + 20) == ws[5]
    ensures Get32(d, base + 24) == ws[6] && Get32(d, base + 28) == ws[7] && Get32(d, base + 32) == ws[8]
    ensures Get32(d, base + 36) == ws[9] && Get32(d, base + 40) == ws[10] && Get32(d, base + 44) == ws[11]
    ensures Get32(d, base + 48) == ws[12] && Get32(d, base + 52) == ws[13] && Get32(d, base + 56) == ws[14]
    ensures Get32(d, base + 60) == ws[15] && Get32(d, base + 64) == ws[16] && Get32(d, base + 68) == ws[17]
    ensures forall i :: 0 <= i < 8 ==> Get32(d, base + 72 + 4 * i) == ws[18 + i]
    ensures forall i :: 0 <= i < 8 ==> Get32(d, base + 104 + 8 * i) == ws[26 + 2 * i]
    ensures forall i :: 0 <= i < 8 ==> Get32(d, base + 108 + 8 * i) == ws[27 + 2 * i]
  {
    hide Get32;
    assert Get32(d, base + 4 * 0) == ws[0];
    forall i | 0 <= i < 8
      ensures Get32(d, base + 72 + 4 * i) == ws[18 + i]
      ensures Get32(d, base + 104 + 8 * i) == ws[26 + 2 * i] && Get32(d, base + 108 + 8 * i) == ws[27 + 2 * i]
    {
      assert Get32(d, base + 4 * (18 + i)) == ws[18 + i];
      assert Get32(d, base + 4 * (26 + 2 * i)) == ws[26 + 2 * i];
      assert Get32(d, base + 4 * (27 + 2 * i)) == ws[27 + 2 * i];
    }
  }

  lemma {:induction false} HalvesAt(xs: seq<u64>, i: nat)
    requires i < |xs|
    ensures Halves(xs)[2 * i] + (Halves(xs)[2 * i + 1] as int) * 0x1_0000_0000 == xs[i]
  {
    if i > 0 {
      HalvesAt(xs[1..], i - 1);
      assert Halves(xs)[2..] == Halves(xs[1..]);
    }
  }

  // ---------------------------------------------------------------- return

  ghost predicate MagicAt(v: View, d: seq<u8>, a: u32) {
    WordIs(v, d, Add32(a, 8), FRAME_MAGIC) && WordIs(v, d, Add32(a, 12), FRAME_VERSION)
  }

  /** The frame rt_sigreturn takes: at the stack pointer, or one word below it. */
  ghost function FoundFrame(v: View, d: seq<u8>, esp: u32): Option<u32> {
    if MagicAt(v, d, esp) then Some(esp)
    else if esp >= 4 && MagicAt(v, d, esp - 4) then Some(esp - 4)
    else None
  }

  /** The context rt_sigreturn restores, if it succeeds. */
  ghost function Returned(v: View, d: seq<u8>, esp: u32): (r: Option<Context>)
    requires |d| == v.max
    ensures r.Some? ==> r.value.Valid()
  {
    var found := FoundFrame(v, d, esp);
    if found.None? || !Readable(v, Add32(found.value, 20), 37) then None
    else
      var ws := WordsFrom(d, Add32(found.value, 20), 37);
      if Sound(ws) then Some(Restored(ws)) else None
  }

  // ---------------------------------------------------------------- the kernel's part

  class SignalKernel {
    const space: AddressSpace
    var cpu: Context
    var halted: bool
    var pending: u64
    var actions: map<u32, Action>

    ghost predicate Valid()
      reads this, space
    {
      space.Sized() && cpu.Valid()
    }

    constructor (space: AddressSpace, cpu: Context)
      requires space.Sized() && cpu.Valid()
      ensures Valid() && this.space == space && this.cpu == cpu && pending == 0 && actions == map[] && !halted
    {
      this.space, this.cpu, this.pending, this.actions, this.halted := space, cpu, 0, map[], false;
    }

    /** Takes the lowest pending signal that is not blocked. */
    method TakePendingSignal() returns (taken: Option<(u32, Action)>)
      requires Valid()
      modifies this`pending
      ensures taken.None? ==>
              pending == old(pending) && forall k :: 0 <= k < 64 ==> !(Bit(pending, k) && !Bit(cpu.mask, k))
      ensures taken.Some? ==>
                && var k := taken.value.0 - 1;
                && 0 <= k < 64 && Bit(old(pending), k) && !Bit(cpu.mask, k)
                && (forall j :: 0 <= j < k ==> !(Bit(old(pending), j) && !Bit(cpu.mask, j)))
                && (forall j :: Bit(pending, j) <==> Bit(old(pending), j) && j != k)
                && taken.value.1 == (if taken.value.0 in actions then actions[taken.value.0] else Action(0, 0, 0, 0))
    {
      var available := AndNot(pending, cpu.mask);
      ghost var was := pending;
      for signal := 1 to 65
        invariant pending == was
        invariant forall j :: 0 <= j < signal - 1 ==> !(Bit(was, j) && !Bit(cpu.mask, j))
      {
        var bit := Pow2(signal - 1);
        AndPow2(available, signal - 1);
        AndNotBit(pending, cpu.mask, signal - 1);
        if And(available, bit) != 0 {
          AndNotBound(pending, bit);
          pending := AndNot(pending, bit);
          forall j: nat ensures Bit(pending, j) <==> Bit(was, j) && j != signal - 1 {
            AndNotBit(was, bit, j);
            Pow2Bit(signal - 1, j);
          }
          return Some((signal, if signal in actions then actions[signal] else Action(0, 0, 0, 0)));
        }
      }
      taken := None;
    }

    method DeliverSignal(signal: u32, action: Action) returns (ok: bool)
      requires Valid()
      modifies this`cpu, space.data
      ensures Valid()
      ensures ok <==> old(Deliverable(space.Access(), cpu, signal, action))
      ensures ok ==> cpu == Handling(old(cpu), signal, action)
      ensures ok ==> Wrote(old(space.data[..]), space.data[..], FrameBase(old(cpu).regs[ESP]),
                           FrameWords(old(cpu), signal, action.restorer))
      ensures ok <==>
              && 1 <= signal <= 64 && action.handler != 0 && action.restorer != 0
              && !HasFlag(action.flags, SA_SIGINFO) && old(cpu).regs[ESP] >= 208
              && var base := old(cpu).regs[ESP] - 192;
              Writable(space.Access(), base - base % 16, 42)
      ensures ok ==> 1 <= signal <= 64 && Starts(old(cpu), signal, action, cpu, space.data[..])
      ensures !ok ==> cpu == old(cpu)
      ensures !old(Accepted(cpu, signal, action)) ==> space.data[..] == old(space.data[..])
      ensures old(Accepted(cpu, signal, action)) ==>
                SameOutside(old(space.data[..]), space.data[..], FrameBase(old(cpu).regs[ESP]), 4 * FRAME_WORDS)
    {
      if signal == 0 || signal > 64 || action.handler == 0 { return false; }
      if HasFlag(action.flags, SA_SIGINFO) { return false; }
      if action.restorer == 0 { return false; }
      var esp := cpu.regs[ESP];
      if esp < FRAME_SIZE + 32 { return false; }
      var base := FrameBase(esp);
      if Add32(base, FRAME_SIZE) < base { return false; }
      ok := WriteWords(space, base, FrameWords(cpu, signal, action.restorer));
      if ok {
        HandlerStarts(cpu, signal, action, old(space.data[..]), space.data[..]);
        cpu := Handling(cpu, signal, action);
      }
    }

    method RtSigreturn() returns (ok: bool)
      requires Valid()
      modifies this`cpu, this`halted
      ensures Valid()
      ensures ok <==> Returned(space.Access(), space.data[..], old(cpu).regs[ESP]).Some?
      ensures ok ==> cpu == Returned(space.Access(), space.data[..], old(cpu).regs[ESP]).value && !halted
      ensures !ok ==> cpu == old(cpu) && halted == old(halted)
    {
      var esp := cpu.regs[ESP];
      var base := FindFrame(esp);
      if base.None? { return false; }
      var words := ReadWords(space, Add32(base.value, 20), 37);
      if words.None? || !Sound(words.value) { return false; }
      cpu, halted := Restored(words.value), false;
      ok := true;
    }

    /** The loop over the two candidates. */
    method FindFrame(esp: u32) returns (base: Option<u32>)
      requires Valid()
      ensures base == FoundFrame(space.Access(), space.data[..], esp)
    {
      var candidates := if esp >= 4 then [esp, esp - 4] else [esp];
      for i := 0 to |candidates|
        invariant forall j :: 0 <= j < i ==> !MagicAt(space.Access(), space.data[..], candidates[j])
      {
        var magic := space.Read32(Add32(candidates[i], 8));
        if magic.Some? && magic.value == FRAME_MAGIC {
          var version := space.Read32(Add32(candidates[i], 12));
          if version.Some? && version.value == FRAME_VERSION { return Some(candidates[i]); }
        }
      }
      assert candidates[0] == esp && (esp >= 4 ==> candidates[1] == esp - 4);
      base := None;
    }
  }

  // ---------------------------------------------------------------- one delivery and its return

  /** A frame whose words are in memory and readable is found from its base and from the word above,
      and gives back the saved context, unless its stack pointer is 0. */
  lemma ReturnRestores(v: View, d: seq<u8>, base: u32, esp: u32, c: Context, signal: u32, restorer: u32)
    requires c.Valid() && |d| == v.max
    requires WordsAt(d, base, FrameWords(c, signal, restorer)) && Readable(v, base, FRAME_WORDS)
    requires esp == base || esp == base + 4
    ensures Returned(v, d, esp) == if c.regs[ESP] != 0 then Some(c) else None
  {
    var ws := FrameWords(c, signal, restorer);
    FrameFound(v, d, base, esp, ws);
    FrameReadable(v, d, base, ws);
    assert ws[5..] == ContextWords(c);
    ContextRoundTrip(c);
  }

  lemma FrameFound(v: View, d: seq<u8>, base: u32, esp: u32, ws: seq<u32>)
    requires |d| == v.max && |ws| == FRAME_WORDS && ws[2] == FRAME_MAGIC && ws[3] == FRAME_VERSION
    requires WordsAt(d, base, ws) && Readable(v, base, FRAME_WORDS)
    requires esp == base || esp == base + 4
    ensures FoundFrame(v, d, esp) == Some(base)
  {
    hide Get32;
    assert WordAt(d, base, 2) == ws[2] && WordAt(d, base, 3) == ws[3];
    assert Add32(base, 4 * 2) == base + 8 && Add32(base, 4 * 3) == base + 12;
  }

  lemma FrameReadable(v: View, d: seq<u8>, base: u32, ws: seq<u32>)
    requires |d| == v.max && |ws| == FRAME_WORDS
    requires WordsAt(d, base, ws) && Readable(v, base, FRAME_WORDS)
    ensures Readable(v, Add32(base, 20), 37) && WordsFrom(d, Add32(base, 20), 37) == ws[5..]
  {
    hide Get32;
    forall i | 0 <= i < 37
      ensures v.Permits(Add32(base + 20, 4 * i), 4, PROT_READ) && Get32(d, Add32(base + 20, 4 * i)) == ws[5..][i]
    {
      assert Add32(base + 20, 4 * i) == base + 4 * (5 + i);
      assert Add32(base, 4 * (5 + i)) == base + 4 * (5 + i);
      assert WordAt(d, base, 5 + i) == ws[5 + i];
    }
  }

  // ---------------------------------------------------------------- nested handlers

  /** A delivery that has not returned yet. */
  datatype Frame = Frame(base: u32, saved: Context, signal: u32, action: Action)

  datatype State = State(view: View, cpu: Context, bytes: seq<u8>, live: seq<Frame>)

  /** What happens to a process: a signal is delivered, rt_sigreturn is called, or guest code and
      other system calls run. */
  datatype Event = Deliver(signal: u32, action: Action) | Return | Guest

  ghost predicate FrameKept(d: seq<u8>, f: Frame) {
    && f.saved.Valid() && f.saved.regs[ESP] >= FRAME_SIZE + 32 && f.base % 16 == 0
    && WordsAt(d, f.base, FrameWords(f.saved, f.signal, f.action.restorer))
  }

  /** Two frames share a byte. */
  predicate Overlap(base: int, other: int) {
    base < other + 4 * FRAME_WORDS && other < base + 4 * FRAME_WORDS
  }

  ghost predicate Apart(live: seq<Frame>) {
    forall i, j :: 0 <= i < j < |live| ==> !Overlap(live[i].base, live[j].base)
  }

  ghost predicate Inv(s: State) {
    && |s.bytes| == s.view.max && s.cpu.Valid()
    && (forall i :: 0 <= i < |s.live| ==> FrameKept(s.bytes, s.live[i]))
    && Apart(s.live)
  }

  /** Guest code may do anything except write to live frames. */
  ghost predicate GuestStep(s: State, t: State) {
    && t.live == s.live && t.cpu.Valid() && |t.bytes| == t.view.max == |s.bytes|
    && forall i, a :: 0 <= i < |s.live| && s.live[i].base <= a < s.live[i].base + 4 * FRAME_WORDS && a < |s.bytes| ==>
         t.bytes[a] == s.bytes[a]
  }

  /** A new frame shares a byte with another exactly when the interrupted stack pointer is 32 to 367 bytes
      above that frame's base: below it lands underneath, above it lands clear of it. */
  lemma OverlapIff(esp: u32, base: u32)
    requires esp >= FRAME_SIZE + 32 && base % 16 == 0
    ensures Overlap(FrameBase(esp), base) <==> base + 32 <= esp < base + 368
  {
    var q, r := base / 16, (esp - 192) / 16;
    assert base == 16 * q && FrameBase(esp) == 16 * r;
  }

  /** How an overlap loses a context: a delivery 192 bytes above a live frame writes its frame exactly over
      it.  The outer handler's return would have given the outer context, and now gives the inner one. */
  lemma OverlapLoses(v: View, d: seq<u8>, d': seq<u8>, base: u32, outer: Context, inner: Context, signal: u32,
                     restorer: u32)
    requires outer.Valid() && outer.regs[ESP] != 0 && WordsAt(d, base, FrameWords(outer, signal, restorer))
    requires inner.Valid() && inner.regs[ESP] == base + 192 && base % 16 == 0 && 16 <= base && inner.eip != outer.eip
    requires |d| == v.max && Readable(v, base, FRAME_WORDS)
    requires Wrote(d, d', FrameBase(inner.regs[ESP]), FrameWords(inner, signal, restorer))
    ensures FrameBase(inner.regs[ESP]) == base && Overlap(base, base)
    ensures Returned(v, d, base) == Some(outer) && Returned(v, d', base) == Some(inner) != Some(outer)
  {
    hide Encode, Splice, FrameWords, Wrote, Returned, WordsAt;
    ReturnRestores(v, d, base, base, outer, signal, restorer);
    WroteWords(d, d', base, FrameWords(inner, signal, restorer));
    ReturnRestores(v, d', base, base, inner, signal, restorer);
  }

  /** A delivery of a signal that is not blocked (TakePendingSignal), whose frame shares no byte with a
      live frame. */
  ghost predicate DeliverStep(s: State, t: State, signal: u32, action: Action)
    requires s.cpu.Valid()
  {
    && Deliverable(s.view, s.cpu, signal, action) && !Bit(s.cpu.mask, signal - 1)
    && (forall i :: 0 <= i < |s.live| ==> !(s.live[i].base + 32 <= s.cpu.regs[ESP] < s.live[i].base + 368))
    && var base := FrameBase(s.cpu.regs[ESP]);
    && Wrote(s.bytes, t.bytes, base, FrameWords(s.cpu, signal, action.restorer))
    && t.cpu == Handling(s.cpu, signal, action) && t.view == s.view
    && t.live == s.live + [Frame(base, s.cpu, signal, action)]
  }

  /** rt_sigreturn from the innermost handler, with the stack pointer at its frame or one word above,
      and the frame still readable.  A failure would return EFAULT to the handler. */
  ghost predicate ReturnStep(s: State, t: State)
    requires s.cpu.Valid() && |s.bytes| == s.view.max
  {
    && s.live != []
    && var f := s.live[|s.live| - 1];
    && (s.cpu.regs[ESP] == f.base || s.cpu.regs[ESP] == f.base + 4)
    && Readable(s.view, f.base, FRAME_WORDS)
    && t.view == s.view && t.bytes == s.bytes && t.live == s.live[..|s.live| - 1]
    && var r := Returned(s.view, s.bytes, s.cpu.regs[ESP]);
    t.cpu == if r.Some? then r.value else s.cpu.(regs := s.cpu.regs[EAX := 0x1_0000_0000 - EFAULT])
  }

  ghost predicate Step(s: State, e: Event, t: State) {
    && s.cpu.Valid() && |s.bytes| == s.view.max
    && match e
       case Deliver(signal, action) => DeliverStep(s, t, signal, action)
       case Return => ReturnStep(s, t)
       case Guest => GuestStep(s, t)
  }

  /** Writing a frame leaves a frame that it does not overlap alone. */
  lemma FrameSurvives(d0: seq<u8>, d: seq<u8>, base: u32, ws: seq<u32>, f: Frame)
    requires |ws| == FRAME_WORDS && Wrote(d0, d, base, ws) && !Overlap(base, f.base) && FrameKept(d0, f)
    ensures FrameKept(d, f)
  {
    hide Encode, FrameWords;
    WordsKept(d0, d, f.base, FrameWords(f.saved, f.signal, f.action.restorer));
  }

  lemma DeliverKeeps(s: State, t: State, signal: u32, action: Action)
    requires Inv(s) && DeliverStep(s, t, signal, action)
    ensures Inv(t)
  {
    hide Splice, Encode, FrameWords, FrameBase, Wrote, WordsAt, Overlap;
    var base, ws := FrameBase(s.cpu.regs[ESP]), FrameWords(s.cpu, signal, action.restorer);
    WroteWords(s.bytes, t.bytes, base, ws);
    forall i | 0 <= i < |s.live|
      ensures !Overlap(s.live[i].base, base) && FrameKept(t.bytes, s.live[i])
    {
      assert FrameKept(s.bytes, s.live[i]);
      OverlapIff(s.cpu.regs[ESP], s.live[i].base);
      OverlapSym(base, s.live[i].base);
      FrameSurvives(s.bytes, t.bytes, base, ws, s.live[i]);
    }
  }

  lemma OverlapSym(base: int, other: int)
    ensures Overlap(base, other) <==> Overlap(other, base)
  {
  }

  lemma GuestKeeps(s: State, t: State)
    requires Inv(s) && GuestStep(s, t)
    ensures Inv(t)
  {
    forall i | 0 <= i < |t.live| ensures FrameKept(t.bytes, t.live[i]) {
      assert FrameKept(s.bytes, s.live[i]);
      WordsKept(s.bytes, t.bytes, s.live[i].base,
                FrameWords(s.live[i].saved, s.live[i].signal, s.live[i].action.restorer));
    }
  }

  /** A return always succeeds and restores exactly what the innermost delivery saved. */
  lemma ReturnKeeps(s: State, t: State)
    requires Inv(s) && ReturnStep(s, t)
    ensures Inv(t) && t.cpu == s.live[|s.live| - 1].saved
  {
    var f := s.live[|s.live| - 1];
    assert FrameKept(s.bytes, f);
    ReturnRestores(s.view, s.bytes, f.base, s.cpu.regs[ESP], f.saved, f.signal, f.action.restorer);
  }

  lemma StepKeeps(s: State, e: Event, t: State)
    requires Inv(s) && Step(s, e, t)
    ensures Inv(t)
  {
    match e
    case Deliver(signal, action) => DeliverKeeps(s, t, signal, action);
    case Return => ReturnKeeps(s, t);
    case Guest => GuestKeeps(s, t);
  }

  /** A run: the states between the events. */
  ghost predicate Run(ss: seq<State>, es: seq<Event>) {
    |ss| == |es| + 1 && Inv(ss[0]) && forall i :: 0 <= i < |es| ==> Step(ss[i], es[i], ss[i + 1])
  }

  /** Throughout every run, live frames stay intact and apart from each other. */
  lemma {:induction false} RunKeeps(ss: seq<State>, es: seq<Event>, k: nat)
    requires Run(ss, es) && k < |ss|
    ensures Inv(ss[k])
  {
    if k > 0 {
      RunKeeps(ss, es, k - 1);
      StepKeeps(ss[k - 1], es[k - 1], ss[k]);
    }
  }

  /** Between event `i` and state `k`, more handlers are live than before event `i`. */
  ghost predicate Inside(ss: seq<State>, i: nat, k: nat)
    requires i < k < |ss|
  {
    forall m :: i < m <= k ==> |ss[m].live| > |ss[i].live|
  }

  /** A step adds a live frame on top, takes the top one away, or leaves them. */
  lemma LiveStep(s: State, e: Event, t: State)
    requires Step(s, e, t)
    ensures s.live <= t.live || (s.live != [] && t.live == s.live[..|s.live| - 1])
    ensures e.Deliver? ==> |t.live| == |s.live| + 1
  {
  }

  lemma {:induction false} FramesBelowStay(ss: seq<State>, es: seq<Event>, i: nat, k: nat)
    requires Run(ss, es) && i < k < |ss| && es[i].Deliver? && Inside(ss, i, k)
    ensures ss[k].live[..|ss[i].live| + 1] == ss[i + 1].live
  {
    hide Step, Inv;
    assert Step(ss[i], es[i], ss[i + 1]);
    LiveStep(ss[i], es[i], ss[i + 1]);
    if k > i + 1 {
      FramesBelowStay(ss, es, i, k - 1);
      assert Step(ss[k - 1], es[k - 1], ss[k - 1 + 1]);
      LiveStep(ss[k - 1], es[k - 1], ss[k]);
      assert |ss[k].live| > |ss[i].live|;
    }
  }

  /** Only a return takes the number of live handlers from above `n` to `n`. */
  lemma LastReturn(s: State, e: Event, t: State, n: nat)
    requires Inv(s) && Step(s, e, t) && |s.live| > n && |t.live| <= n
    ensures |s.live| == n + 1 && t.live == s.live[..n] && t.cpu == s.live[n].saved
  {
    assert e.Return?;
    ReturnKeeps(s, t);
  }

  lemma Started(s: State, e: Event, t: State)
    requires Step(s, e, t) && e.Deliver?
    ensures |t.live| == |s.live| + 1 && t.live[..|s.live|] == s.live && t.live[|s.live|].saved == s.cpu
  {
  }

  /** However deliveries nest, when the handler started by event `i` has returned the whole context is
      what it was when the signal arrived, and so are the outer handlers. */
  lemma NestedRestore(ss: seq<State>, es: seq<Event>, i: nat, j: nat)
    requires Run(ss, es) && i < j < |ss| && es[i].Deliver?
    requires |ss[j].live| <= |ss[i].live| && (i + 1 < j ==> Inside(ss, i, j - 1))
    ensures ss[j].cpu == ss[i].cpu && ss[j].live == ss[i].live
  {
    hide Step, Inv;
    var n := |ss[i].live|;
    assert Step(ss[i], es[i], ss[i + 1]) && Step(ss[j - 1], es[j - 1], ss[j]);
    Started(ss[i], es[i], ss[i + 1]);
    FramesBelowStay(ss, es, i, j - 1);
    RunKeeps(ss, es, j - 1);
    LastReturn(ss[j - 1], es[j - 1], ss[j], n);
    assert ss[j - 1].live == ss[i + 1].live;
  }

  /** The bit is blocked now and in every context saved by a handler inside the `n`-th. */
  ghost predicate Held(s: State, n: nat, bit: nat) {
    Bit(s.cpu.mask, bit) && forall m :: n < m < |s.live| ==> Bit(s.live[m].saved.mask, bit)
  }

  lemma HeldStep(s: State, e: Event, t: State, n: nat, bit: nat)
    requires Inv(s) && Step(s, e, t) && Held(s, n, bit) && |t.live| > n
    requires e.Guest? ==> t.cpu.mask == s.cpu.mask
    ensures Held(t, n, bit)
  {
    match e
    case Deliver(signal, action) => NewMaskBits(s.cpu.mask, signal, action, bit);
    case Return => ReturnKeeps(s, t);
    case Guest =>
  }

  lemma HeldAtStart(s: State, e: Event, t: State)
    requires Step(s, e, t) && e.Deliver? && !HasFlag(e.action.flags, SA_NODEFER)
    ensures 1 <= e.signal && Held(t, |s.live|, e.signal - 1)
  {
    NewMaskBits(s.cpu.mask, e.signal, e.action, e.signal - 1);
  }

  lemma {:induction false} StaysBlocked(ss: seq<State>, es: seq<Event>, i: nat, k: nat)
    requires Run(ss, es) && i < k < |ss| && es[i].Deliver? && Inside(ss, i, k)
    requires !HasFlag(es[i].action.flags, SA_NODEFER)
    requires forall m :: i < m < k && es[m].Guest? ==> ss[m + 1].cpu.mask == ss[m].cpu.mask
    ensures 1 <= es[i].signal && Held(ss[k], |ss[i].live|, es[i].signal - 1)
  {
    hide Step, Inv, Held;
    assert Step(ss[i], es[i], ss[i + 1]);
    HeldAtStart(ss[i], es[i], ss[i + 1]);
    if k > i + 1 {
      StaysBlocked(ss, es, i, k - 1);
      RunKeeps(ss, es, k - 1);
      assert |ss[k].live| > |ss[i].live| && Step(ss[k - 1], es[k - 1], ss[k]);
      HeldStep(ss[k - 1], es[k - 1], ss[k], |ss[i].live|, es[i].signal - 1);
    }
  }

  /** A signal delivered without SA_NODEFER is not delivered again before its handler returns, unless
      guest code changes the mask. */
  lemma NotTakenAgain(ss: seq<State>, es: seq<Event>, i: nat, k: nat)
    requires Run(ss, es) && i < k < |es| && es[i].Deliver? && Inside(ss, i, k)
    requires !HasFlag(es[i].action.flags, SA_NODEFER)
    requires forall m :: i < m < k && es[m].Guest? ==> ss[m + 1].cpu.mask == ss[m].cpu.mask
    ensures 1 <= es[i].signal && Bit(ss[k].cpu.mask, es[i].signal - 1)
    ensures !(es[k].Deliver? && es[k].signal == es[i].signal)
  {
    StaysBlocked(ss, es, i, k);
    assert Step(ss[k], es[k], ss[k + 1]);
  }
}