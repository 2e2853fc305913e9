/** REL and RELR relocation of a loaded image. */
module Relocations {
  import opened Words
  import opened Bits
  import opened Bytes
  import opened AddressSpaces
  import opened Sortings

  const R_NONE: nat := 0
  const R_32: nat := 1
  const R_PC32: nat := 2
  const R_GLOB_DAT: nat := 6
  const R_JMP_SLOT: nat := 7
  const R_RELATIVE: nat := 8

  /** A symbol table entry. */
  datatype Symbol = Symbol(name: string, value: nat, defined: bool, weak: bool)

  /** The symbols of the image, those of the image that provides what it leaves undefined, and where that
      one is loaded. */
  datatype Links = Links(own: seq<Symbol>, provider: seq<Symbol>, providerBase: u32)

  /** A run of relocations: done, or stopped at the first failing target. */
  datatype Outcome = Done | Failed(target: u32) | Unresolved(target: u32) | Unsupported(typ: nat)

  /** The word at `target` can be read and written. */
  ghost predicate Patchable(v: View, target: u32) {
    v.Permits(target, 4, PROT_READ) && v.Permits(target, 4, PROT_WRITE)
  }

  /** The word at `target` has become `w`, and no other byte has changed. */
  ghost predicate Stored(d: seq<u8>, d': seq<u8>, target: u32, w: int) {
    && |d'| == |d| && target + 4 <= |d| && Get32(d', target) == w
    && forall i :: 0 <= i < |d| && !(target <= i < target + 4) ==> d'[i] == d[i]
  }

  lemma StoredPut(d: seq<u8>, target: u32, w: u32)
    requires target + 4 <= |d|
    ensures Stored(d, Splice(d, target, Put32(w)), target, w)
  {
    hide Put32, Get32;
    GetPut(d, target, w);
  }

  ghost function Patched(d: seq<u8>, target: u32, base: u32): (r: seq<u8>)
    requires target + 4 <= |d|
    ensures |r| == |d|
  {
    Splice(d, target, Put32(Add32(Get32(d, target), base)))
  }

  /** Adds `base` to the word at each target in turn, stopping at the first that cannot be patched. */
  ghost function Relocate(v: View, d: seq<u8>, targets: seq<u32>, base: u32): (r: (seq<u8>, Outcome))
    requires |d| == v.max
    ensures |r.0| == |d| && (r.1.Done? || r.1.Failed?)
    decreases targets
  {
    if targets == [] then (d, Done)
    else if !Patchable(v, targets[0]) then (d, Failed(targets[0]))
    else Relocate(v, Patched(d, targets[0], base), targets[1..], base)
  }

  lemma {:induction false} RelocateConcat(v: View, d: seq<u8>, xs: seq<u32>, ys: seq<u32>, base: u32)
    requires |d| == v.max
    ensures var r := Relocate(v, d, xs, base);
            Relocate(v, d, xs + ys, base) == if r.1.Failed? then r else Relocate(v, r.0, ys, base)
    decreases xs
  {
    if xs == [] {
      assert xs + ys == ys;
    } else {
      assert (xs + ys)[1..] == xs[1..] + ys;
      if Patchable(v, xs[0]) {
        RelocateConcat(v, Patched(d, xs[0], base), xs[1..], ys, base);
      }
    }
  }

  /** Running `step` after `done` has succeeded; once `step` fails, what follows does not matter. */
  lemma RelocateStep(v: View, d0: seq<u8>, done: seq<u32>, d: seq<u8>, step: seq<u32>, tail: seq<u32>, base: u32)
    requires |d0| == v.max && Relocate(v, d0, done, base) == (d, Done)
    ensures |d| == v.max && Relocate(v, d0, done + step, base) == Relocate(v, d, step, base)
    ensures Relocate(v, d, step, base).1.Failed? ==>
              Relocate(v, d0, done + step + tail, base) == Relocate(v, d, step, base)
  {
    RelocateConcat(v, d0, done, step, base);
    RelocateConcat(v, d0, done + step, tail, base);
  }

  method ApplyRelativeWord(space: AddressSpace, target: u32, base: u32) returns (ok: bool)
    requires space.Sized()
    modifies space.data
    ensures ok <==> Patchable(space.Access(), target)
    ensures (space.data[..], if ok then Done else Failed(target))
            == Relocate(space.Access(), old(space.data[..]), [target], base)
    ensures ok ==> Stored(old(space.data[..]), space.data[..], target,
                          (Get32(old(space.data[..]), target) + base) % 0x1_0000_0000)
    ensures !ok ==> space.data[..] == old(space.data[..])
  {
    var word := space.Read32(target);
    if word.None? { return false; }
    ok := space.Write32(target, Add32(word.value, base));
    if ok { StoredPut(old(space.data[..]), target, Add32(word.value, base)); }
  }

  // ---------------------------------------------------------------- RELR

  function WordsOf(data: seq<u8>): (ws: seq<u32>)
    requires |data| % 4 == 0
    ensures |ws| == |data| / 4
  {
    if data == [] then [] else [Get32(data, 0)] + WordsOf(data[4..])
  }

  /** The addresses named by bits `bit`.. of a bitmap whose first bit stands for `where`. */
  function BitmapTargets(entry: u32, where: u32, bit: nat): seq<u32>
    decreases 32 - bit, entry
  {
    if bit >= 32 then []
    else if bit > 0 && Bit(entry, bit) then [Add32(where, (bit - 1) * 4)] + BitmapTargets(entry, where, bit + 1)
    else BitmapTargets(entry, where, bit + 1)
  }

  /** The addresses that the code patches, in order: an even entry is an offset from `base`, an odd
      one a bitmap over the 31 words that follow. */
  function RelrTargets(ws: seq<u32>, where: u32, base: u32): seq<u32> {
    if ws == [] then []
    else EntryTargets(ws[0], where, base) + RelrTargets(ws[1..], NextWhere(ws[0], where, base), base)
  }

  function EntryTargets(entry: u32, where: u32, base: u32): seq<u32> {
    if entry % 2 == 0 then [Add32(entry, base)] else BitmapTargets(entry, where, 1)
  }

  function NextWhere(entry: u32, where: u32, base: u32): u32 {
    if entry % 2 == 0 then Add32(Add32(entry, base), 4) else Add32(where, 31 * 4)
  }

  method ApplyRelr(space: AddressSpace, data: seq<u8>, base: u32) returns (ok: bool, outcome: Outcome)
    requires space.Sized()
    modifies space.data
    ensures ok <==> |data| % 4 == 0 && outcome == Done
    ensures |data| % 4 != 0 ==> space.data[..] == old(space.data[..])
    ensures |data| % 4 == 0 ==>
              (space.data[..], outcome)
                == Relocate(space.Access(), old(space.data[..]), RelrTargets(WordsOf(data), 0, base), base)
  {
    if |data| % 4 != 0 { return false, Done; }
    var where: u32 := 0;
    ghost var v, d0, all, done := space.Access(), space.data[..], RelrTargets(WordsOf(data), 0, base), [];
    ghost var ws := WordsOf(data);
    assert ws[0..] == ws;
    for i := 0 to |data| / 4
      invariant all == done + RelrTargets(ws[i..], where, base)
      invariant (space.data[..], Done) == Relocate(v, d0, done, base)
    {
      WordsAt(data, i);
      ghost var step, tail := RelrFirst(ws[i..], where, base);
      assert all == done + step + tail;
      RelocateStep(v, d0, done, space.data[..], step, tail, base);
      where, outcome := ApplyRelrEntry(space, Get32(data, 4 * i), where, base);
      if outcome.Failed? { return false, outcome; }
      done := done + step;
    }
    assert all == done;
    return true, Done;
  }

  /** The targets of the first entry, and those of the rest. */
  lemma RelrFirst(ws: seq<u32>, where: u32, base: u32) returns (step: seq<u32>, tail: seq<u32>)
    requires ws != []
    ensures ws[1..] == ws[1..|ws|] && step == EntryTargets(ws[0], where, base)
            && tail == RelrTargets(ws[1..], NextWhere(ws[0], where, base), base)
    ensures RelrTargets(ws, where, base) == step + tail
  {
    step := EntryTargets(ws[0], where, base);
    tail := RelrTargets(ws[1..], NextWhere(ws[0], where, base), base);
  }

  method ApplyRelrEntry(space: AddressSpace, entry: u32, where: u32, base: u32) returns (next: u32, outcome: Outcome)
    requires space.Sized()
    modifies space.data
    ensures next == NextWhere(entry, where, base)
    ensures (space.data[..], outcome)
            == Relocate(space.Access(), old(space.data[..]), EntryTargets(entry, where, base), base)
  {
    if entry % 2 == 0 {
      var target := Add32(entry, base);
      var patched := ApplyRelativeWord(space, target, base);
      next, outcome := Add32(target, 4), if patched then Done else Failed(target);
    } else {
      outcome := ApplyBitmap(space, entry, where, base);
      next := Add32(where, 31 * 4);
    }
  }

  lemma {:induction false} WordsAt(data: seq<u8>, i: nat)
    requires |data| % 4 == 0 && i < |data| / 4
    ensures WordsOf(data)[i] == Get32(data, 4 * i)
  {
    if i > 0 { WordsAt(data[4..], i - 1); }
  }

  method ApplyBitmap(space: AddressSpace, entry: u32, where: u32, base: u32) returns (outcome: Outcome)
    requires space.Sized()
    modifies space.data
    ensures (space.data[..], outcome)
            == Relocate(space.Access(), old(space.data[..]), BitmapTargets(entry, where, 1), base)
  {
    ghost var v, d0, all, done := space.Access(), space.data[..], BitmapTargets(entry, where, 1), [];
    for bit := 1 to 32
      invariant all == done + BitmapTargets(entry, where, bit)
      invariant (space.data[..], Done) == Relocate(v, d0, done, base)
    {
      if Bit(entry, bit) {
        var target := Add32(where, (bit - 1) * 4);
        ghost var tail := BitmapTargets(entry, where, bit + 1);
        assert all == done + [target] + tail;
        RelocateStep(v, d0, done, space.data[..], [target], tail, base);
        var patched := ApplyRelativeWord(space, target, base);
        if !patched { return Failed(target); }
        done := done + [target];
      }
    }
    assert all == done;
    outcome := Done;
  }

  // ---------------------------------------------------------------- REL

  /** The value that a relocation of type `typ` stores, if the type is known. */
  function RelValue(typ: nat, target: u32, addend: u32, sym: u32, base: u32): Option<u32> {
    if typ == R_RELATIVE then Some(Add32(base, addend))
    else if typ == R_32 then Some(Add32(sym, addend))
    else if typ == R_GLOB_DAT || typ == R_JMP_SLOT then Some(sym)
    else if typ == R_PC32 then Some(Sub32(Add32(sym, addend), target))
    else None
  }

  function SymbolAt(symbols: seq<Symbol>, index: nat): Option<Symbol> {
    if index != 0 && index < |symbols| then Some(symbols[index]) else None
  }

  predicate Defines(s: Symbol, name: string) { s.defined && s.name == name }

  /** Where the first definition of `name` is. */
  function FirstDefinition(symbols: seq<Symbol>, name: string): (k: Option<nat>)
    ensures k.Some? ==> k.value < |symbols| && Defines(symbols[k.value], name)
    ensures k.Some? ==> forall i :: 0 <= i < k.value ==> !Defines(symbols[i], name)
    ensures k.None? ==> forall i :: 0 <= i < |symbols| ==> !Defines(symbols[i], name)
  {
    if symbols == [] then None
    else if Defines(symbols[0], name) then Some(0)
    else
      var k := FirstDefinition(symbols[1..], name);
      assert forall i :: 0 < i < |symbols| ==> symbols[i] == symbols[1..][i - 1];
      if k.None? then None else Some(k.value + 1)
  }

  /** The address of a symbol, if it resolves: no symbol is at 0, a defined one is in the image, and an
      undefined one is where the provider first defines its name. */
  function Resolved(sym: Option<Symbol>, links: Links, base: u32): Option<u32> {
    if sym.None? then Some(0)
    else if sym.value.defined then Some(Add32(base, sym.value.value))
    else
      var k := FirstDefinition(links.provider, sym.value.name);
      if k.None? then None else Some(Add32(links.providerBase, links.provider[k.value].value))
  }

  /** Where a symbol is: no symbol at 0, one that the image defines at its value from the base, another where
      the provider first defines its name, at that value from the provider's base; or it is nowhere. */
  ghost predicate Located(sym: Option<Symbol>, links: Links, base: u32, address: Option<u32>) {
    if sym.None? then address == Some(0)
    else if sym.value.defined then address == Some((base + sym.value.value) % 0x1_0000_0000)
    else if address.None? then forall k: nat :: !FirstDefined(links.provider, sym.value.name, k)
    else exists k: nat :: FirstDefined(links.provider, sym.value.name, k)
                        && address.value == (links.providerBase + links.provider[k].value) % 0x1_0000_0000
  }

  /** Symbol `k` is the first that defines the name. */
  ghost predicate FirstDefined(symbols: seq<Symbol>, name: string, k: nat) {
    && k < |symbols| && symbols[k].name == name && symbols[k].defined
    && forall i :: 0 <= i < k && symbols[i].name == name ==> !symbols[i].defined
  }

  lemma ResolvedLocated(sym: Option<Symbol>, links: Links, base: u32)
    ensures Located(sym, links, base, Resolved(sym, links, base))
  {
    hide FirstDefinition;
    if sym.Some? && !sym.value.defined {
      var k := FirstDefinition(links.provider, sym.value.name);
      if k.Some? { assert FirstDefined(links.provider, sym.value.name, k.value); }
    }
  }

  /** What a REL entry does (the relocation types of the System V i386 psABI), with A the word at its target P,
      S the address of its symbol and B the base: nothing, B + A, S + A, S or S + A - P; and why it fails. */
  ghost predicate Relocates(v: View, d: seq<u8>, offset: u32, info: u32, links: Links, base: u32, d': seq<u8>,
                            outcome: Outcome)
    requires |d| == v.max
  {
    var index := info / 0x100;
    var sym := if 0 < index < |links.own| then Some(links.own[index]) else None;
    exists address: Option<u32> ::
      && Located(sym, links, base, address)
      && RelocatesWith(v, d, info % 0x100, (offset + base) % 0x1_0000_0000,
                       sym.Some? && address.None? && !sym.value.weak, if address.Some? then address.value else 0, base,
                       d', outcome)
  }

  /** The same with the symbol looked up; `missing` says that it is strong and nowhere. */
  ghost predicate RelocatesWith(v: View, d: seq<u8>, typ: nat, target: u32, missing: bool, s: u32, base: u32,
                                d': seq<u8>, outcome: Outcome)
    requires |d| == v.max
  {
    if typ == 0 then d' == d && outcome == Done
    else if !v.Permits(target, 4, PROT_READ) then d' == d && outcome == Failed(target)
    else if missing && (typ == 1 || typ == 6 || typ == 7) then d' == d && outcome == Unresolved(target)
    else if typ != 1 && typ != 2 && typ != 6 && typ != 7 && typ != 8 then d' == d && outcome == Unsupported(typ)
    else if !v.Permits(target, 4, PROT_WRITE) then d' == d && outcome == Failed(target)
    else
      && outcome == Done
      && var a := Get32(d, target);
      Stored(d, d', target, (if typ == 8 then base + a else if typ == 1 then s + a
                             else if typ == 2 then s + a - target else s) % 0x1_0000_0000)
  }

  lemma SubAdd(s: u32, a: u32, p: u32)
    ensures Sub32(Add32(s, a), p) == (s + a - p) % 0x1_0000_0000
  {
    var q := (s + a) / 0x1_0000_0000;
    assert Add32(s, a) == s + a - q * 0x1_0000_0000;
    assert (s + a - p) - q * 0x1_0000_0000 == Add32(s, a) - p;
  }

  lemma RelStepRelocates(v: View, d: seq<u8>, offset: u32, info: u32, links: Links, base: u32)
    requires |d| == v.max
    ensures var r := RelStep(v, d, offset, info, links, base);
            Relocates(v, d, offset, info, links, base, r.0, r.1)
  {
    hide Located, RelStep, Resolved, RelocatesWith;
    var sym := SymbolAt(links.own, info / 0x100);
    var address := Resolved(sym, links, base);
    var s: u32 := if address.Some? then address.value else 0;
    ResolvedLocated(sym, links, base);
    RelStepWith(v, d, offset, info, links, base, sym, address, s);
  }

  lemma RelStepWith(v: View, d: seq<u8>, offset: u32, info: u32, links: Links, base: u32, sym: Option<Symbol>,
                    address: Option<u32>, s: u32)
    requires |d| == v.max && sym == SymbolAt(links.own, info / 0x100) && address == Resolved(sym, links, base)
    requires s == if address.Some? then address.value else 0
    ensures var r := RelStep(v, d, offset, info, links, base);
            RelocatesWith(v, d, info % 0x100, (offset + base) % 0x1_0000_0000,
                          sym.Some? && address.None? && !sym.value.weak, s, base, r.0, r.1)
  {
    hide Put32, Get32, Resolved, Walk, Stored, Splice, SymbolAt, RelValue;
    var typ, target := info % 0x100, Add32(offset, base);
    if v.Permits(target, 4, PROT_READ) {
      var a := Get32(d, target);
      RelValueIs(typ, target, a, s, base);
      var w := RelValue(typ, target, a, s, base);
      if w.Some? { StoredPut(d, target, w.value); }
    }
  }

  lemma RelValueIs(typ: nat, p: u32, a: u32, s: u32, base: u32)
    ensures var w := RelValue(typ, p, a, s, base);
            if typ == 1 || typ == 2 || typ == 6 || typ == 7 || typ == 8
            then w == Some((if typ == 8 then base + a else if typ == 1 then s + a
                            else if typ == 2 then s + a - p else s) % 0x1_0000_0000)
            else w == None
  {
    SubAdd(s, a, p);
  }

  method LookupSymbol(sym: Option<Symbol>, links: Links, base: u32) returns (address: u32, resolved: bool)
    ensures Resolved(sym, links, base) == if resolved then Some(address) else None
    ensures !resolved ==> address == 0
    ensures Located(sym, links, base, if resolved then Some(address) else None)
  {
    ResolvedLocated(sym, links, base);
    hide Located;
    if sym.None? { return 0, true; }
    if sym.value.defined { return Add32(base, sym.value.value), true; }
    for i := 0 to |links.provider|
      invariant forall j :: 0 <= j < i ==> !Defines(links.provider[j], sym.value.name)
    {
      var candidate := links.provider[i];
      if candidate.name == sym.value.name && candidate.defined {
        return Add32(links.providerBase, candidate.value), true;
      }
    }
    return 0, false;
  }

  /** A strong symbol that nobody defines stops every relocation type that checks for it. */
  predicate Blocks(typ: nat, sym: Option<Symbol>, resolved: bool) {
    (typ == R_32 || typ == R_GLOB_DAT || typ == R_JMP_SLOT) && sym.Some? && !resolved && !sym.value.weak
  }

  /** One REL entry. */
  ghost function RelStep(v: View, d: seq<u8>, offset: u32, info: u32, links: Links, base: u32): (r: (seq<u8>, Outcome))
    requires |d| == v.max
    ensures |r.0| == |d|
  {
    var typ, sym, target := info % 0x100, SymbolAt(links.own, info / 0x100), Add32(offset, base);
    var address := Resolved(sym, links, base);
    if typ == R_NONE then (d, Done)
    else if !v.Permits(target, 4, PROT_READ) then (d, Failed(target))
    else if Blocks(typ, sym, address.Some?) then (d, Unresolved(target))
    else
      match RelValue(typ, target, Get32(d, target), if address.Some? then address.value else 0, base)
      case None => (d, Unsupported(typ))
      case Some(w) => if v.Permits(target, 4, PROT_WRITE) then (Splice(d, target, Put32(w)), Done)
        else (d, Failed(target))
  }

  /** The entries of a REL section: offset and info. */
  function EntriesOf(data: seq<u8>): (es: seq<(u32, u32)>)
    requires |data| % 8 == 0
    ensures |es| == |data| / 8
  {
    if data == [] then [] else [(Get32(data, 0), Get32(data, 4))] + EntriesOf(data[8..])
  }

  lemma {:induction false} EntriesAt(data: seq<u8>, i: nat)
    requires |data| % 8 == 0 && i < |data| / 8
    ensures EntriesOf(data)[i] == (Get32(data, 8 * i), Get32(data, 8 * i + 4))
  {
    if i > 0 { EntriesAt(data[8..], i - 1); }
  }

  ghost function RelRun(v: View, d: seq<u8>, es: seq<(u32, u32)>, links: Links, base: u32): (r: (seq<u8>, Outcome))
    requires |d| == v.max
    ensures |r.0| == |d|
    decreases es
  {
    if es == [] then (d, Done)
    else
      var r := RelStep(v, d, es[0].0, es[0].1, links, base);
      if r.1 != Done then r else RelRun(v, r.0, es[1..], links, base)
  }

  method ApplyRelEntry(space: AddressSpace, offset: u32, info: u32, links: Links, base: u32) returns (outcome: Outcome)
    requires space.Sized()
    modifies space.data
    ensures (space.data[..], outcome) == RelStep(space.Access(), old(space.data[..]), offset, info, links, base)
    ensures Relocates(space.Access(), old(space.data[..]), offset, info, links, base, space.data[..], outcome)
  {
    hide Relocates, Located;
    RelStepRelocates(space.Access(), space.data[..], offset, info, links, base);
    var typ, index, target := info % 0x100, info / 0x100, Add32(offset, base);
    if typ == R_NONE { return Done; }
    var addend := space.Read32(target);
    if addend.None? { return Failed(target); }
    var sym := SymbolAt(links.own, index);
    var address, resolved := LookupSymbol(sym, links, base);
    if Blocks(typ, sym, resolved) { return Unresolved(target); }
    var value := RelValue(typ, target, addend.value, address, base);
    if value.None? { return Unsupported(typ); }
    var ok := space.Write32(target, value.value);
    outcome := if ok then Done else Failed(target);
  }

  method ApplyRel(space: AddressSpace, data: seq<u8>, links: Links, base: u32) returns (ok: bool, outcome: Outcome)
    requires space.Sized()
    modifies space.data
    ensures ok <==> |data| % 8 == 0 && outcome == Done
    ensures |data| % 8 != 0 ==> space.data[..] == old(space.data[..])
    ensures |data| % 8 == 0 ==>
            (space.data[..], outcome) == RelRun(space.Access(), old(space.data[..]), EntriesOf(data), links, base)
  {
    if |data| % 8 != 0 { return false, Done; }
    ghost var v, d0, es := space.Access(), space.data[..], EntriesOf(data);
    assert es[0..] == es;
    for i := 0 to |data| / 8
      invariant RelRun(v, d0, es, links, base) == RelRun(v, space.data[..], es[i..], links, base)
    {
      EntriesAt(data, i);
      assert es[i..][1..] == es[i + 1..];
      outcome := ApplyRelEntry(space, Get32(data, 8 * i), Get32(data, 8 * i + 4), links, base);
      if outcome != Done { return false, outcome; }
    }
    return true, Done;
  }

  // ---------------------------------------------------------------- RELR against REL

  /** The offsets that a RELR stream encodes (System V gABI, SHT_RELR), relative to the load base. */
  function ExpandRelr(ws: seq<u32>, next: u32): seq<u32> {
    if ws == [] then []
    else if ws[0] % 2 == 0 then [ws[0]] + ExpandRelr(ws[1..], Add32(ws[0], 4))
    else BitmapTargets(ws[0], next, 1) + ExpandRelr(ws[1..], Add32(next, 124))
  }

  /** A REL section with one R_386_RELATIVE entry for each offset. */
  function EncodeRelative(offsets: seq<u32>): (data: seq<u8>)
    ensures |data| == 8 * |offsets| && |data| % 8 == 0
  {
    if offsets == [] then [] else Put32(offsets[0]) + Put32(R_RELATIVE) + EncodeRelative(offsets[1..])
  }

  function Rebased(offsets: seq<u32>, base: u32): (r: seq<u32>)
    ensures |r| == |offsets|
  {
    if offsets == [] then [] else [Add32(offsets[0], base)] + Rebased(offsets[1..], base)
  }

  lemma {:induction false} RebasedConcat(xs: seq<u32>, ys: seq<u32>, base: u32)
    ensures Rebased(xs + ys, base) == Rebased(xs, base) + Rebased(ys, base)
  {
    if xs == [] {
      assert xs + ys == ys;
    } else {
      assert (xs + ys)[1..] == xs[1..] + ys;
      RebasedConcat(xs[1..], ys, base);
    }
  }

  lemma {:induction false} BitmapRebased(entry: u32, next: u32, base: u32, bit: nat)
    requires 1 <= bit
    ensures BitmapTargets(entry, Add32(next, base), bit) == Rebased(BitmapTargets(entry, next, bit), base)
    decreases 32 - bit
  {
    if bit < 32 {
      BitmapRebased(entry, next, base, bit + 1);
      if Bit(entry, bit) {
        Add32Swap(next, base, (bit - 1) * 4);
      }
    }
  }

  /** Once the cursor is relative to the base, the code patches what the stream encodes. */
  lemma {:induction false} TargetsRebased(ws: seq<u32>, next: u32, base: u32)
    ensures RelrTargets(ws, Add32(next, base), base) == Rebased(ExpandRelr(ws, next), base)
  {
    if ws != [] {
      if ws[0] % 2 == 0 {
        Add32Swap(ws[0], base, 4);
        TargetsRebased(ws[1..], Add32(ws[0], 4), base);
      } else {
        Add32Swap(next, base, 124);
        TargetsRebased(ws[1..], Add32(next, 124), base);
        BitmapRebased(ws[0], next, base, 1);
        RebasedConcat(BitmapTargets(ws[0], next, 1), ExpandRelr(ws[1..], Add32(next, 124)), base);
      }
    }
  }

  /** REL on relative entries patches its targets in order. */
  lemma {:induction false} RelativeRun(v: View, d: seq<u8>, offsets: seq<u32>, links: Links, base: u32)
    requires |d| == v.max
    ensures RelRun(v, d, EntriesOf(EncodeRelative(offsets)), links, base)
            == Relocate(v, d, Rebased(offsets, base), base)
    decreases offsets
  {
    if offsets != [] {
      var rest := EncodeRelative(offsets[1..]);
      EncodedHead(offsets[0], rest);
      assert EntriesOf(EncodeRelative(offsets)) == [(offsets[0], R_RELATIVE)] + EntriesOf(rest);
      var target := Add32(offsets[0], base);
      if Patchable(v, target) {
        RelativeRun(v, Patched(d, target, base), offsets[1..], links, base);
      }
    }
  }

  lemma EncodedHead(offset: u32, rest: seq<u8>)
    ensures var data := Put32(offset) + Put32(R_RELATIVE) + rest;
            Get32(data, 0) == offset && Get32(data, 4) == R_RELATIVE && data[8..] == rest
  {
    var data := Put32(offset) + Put32(R_RELATIVE) + rest;
    GetPut(data, 0, offset);
    GetPut(data, 4, R_RELATIVE);
    assert Splice(data, 0, Put32(offset)) == data && Splice(data, 4, Put32(R_RELATIVE)) == data;
  }

  /** Every bitmap before the first address entry is empty. */
  predicate NoLeadingBits(ws: seq<u32>) {
    ws == [] || ws[0] % 2 == 0 || (ws[0] == 1 && NoLeadingBits(ws[1..]))
  }

  /** RELR and REL on the expanded stream leave the same memory and the same outcome, for every
      stream that begins with an address entry. */
  lemma RelrIsRel(v: View, d: seq<u8>, ws: seq<u32>, links: Links, base: u32)
    requires |d| == v.max && (ws == [] || ws[0] % 2 == 0)
    ensures Relocate(v, d, RelrTargets(ws, 0, base), base)
         == RelRun(v, d, EntriesOf(EncodeRelative(ExpandRelr(ws, 0))), links, base)
  {
    RelativeRun(v, d, ExpandRelr(ws, 0), links, base);
    TargetsRebased(ws, 0, base);
  }

  lemma {:induction false} LeadingBits(ws: seq<u32>, w: u32, base: u32)
    ensures RelrTargets(ws, w, base) == Rebased(ExpandRelr(ws, w), base) <==> base == 0 || NoLeadingBits(ws)
  {
    if base == 0 || ws == [] || ws[0] % 2 == 0 {
      StartsAligned(ws, w, base);
    } else if ws[0] == 1 {
      BitmapEmpty(ws[0], w);
      EmptyBitmap(ws, w, base);
      LeadingBits(ws[1..], Add32(w, 124), base);
    } else {
      FirstBitmap(ws, w, base);
    }
  }

  lemma StartsAligned(ws: seq<u32>, w: u32, base: u32)
    requires base == 0 || ws == [] || ws[0] % 2 == 0
    ensures RelrTargets(ws, w, base) == Rebased(ExpandRelr(ws, w), base)
  {
    TargetsRebased(ws, w, base);
    if base == 0 {
      assert Add32(w, base) == w;
    } else if ws != [] {
      FirstAddress(ws, w, Add32(w, base), base);
    }
  }

  /** After an address entry the cursor that came before it does not matter. */
  lemma FirstAddress(ws: seq<u32>, w: u32, w': u32, base: u32)
    requires ws != [] && ws[0] % 2 == 0
    ensures RelrTargets(ws, w, base) == RelrTargets(ws, w', base)
  {
    assert EntryTargets(ws[0], w, base) == EntryTargets(ws[0], w', base);
    assert NextWhere(ws[0], w, base) == NextWhere(ws[0], w', base);
  }

  lemma FirstBitmap(ws: seq<u32>, w: u32, base: u32)
    requires ws != [] && ws[0] % 2 == 1 && ws[0] != 1 && base != 0
    ensures RelrTargets(ws, w, base) != Rebased(ExpandRelr(ws, w), base)
  {
    BitmapEmpty(ws[0], w);
    FirstDiffers(BitmapTargets(ws[0], w, 1), RelrTargets(ws[1..], Add32(w, 124), base),
                 ExpandRelr(ws[1..], Add32(w, 124)), base);
  }

  lemma EmptyBitmap(ws: seq<u32>, w: u32, base: u32)
    requires ws != [] && ws[0] % 2 == 1 && BitmapTargets(ws[0], w, 1) == []
    ensures RelrTargets(ws, w, base) == RelrTargets(ws[1..], Add32(w, 124), base)
    ensures ExpandRelr(ws, w) == ExpandRelr(ws[1..], Add32(w, 124))
  {
  }

  /** Rebasing by a non-zero base moves the first address. */
  lemma FirstDiffers(bits: seq<u32>, xs: seq<u32>, ys: seq<u32>, base: u32)
    requires bits != [] && base != 0
    ensures bits + xs != Rebased(bits + ys, base)
  {
    assert (bits + xs)[0] == bits[0] && Rebased(bits + ys, base)[0] == Add32(bits[0], base);
  }

  /** A bitmap names no address exactly when it has no bit but the marker. */
  lemma BitmapEmpty(entry: u32, w: u32)
    requires entry % 2 == 1
    ensures BitmapTargets(entry, w, 1) == [] <==> entry == 1
  {
    BitmapBits(entry, w, 1);
    if entry == 1 {
      forall j: nat | 1 <= j < 32 ensures !Bit(1, j) { ZeroBit(j - 1); }
    } else if BitmapTargets(entry, w, 1) == [] {
      forall k: nat | k < 31 ensures !Bit(entry / 2, k) { assert !Bit(entry, k + 1); }
      Pow2Values();
      NoBits(entry / 2, 31);
    }
  }

  lemma {:induction false} BitmapBits(entry: u32, w: u32, bit: nat)
    requires 1 <= bit
    ensures BitmapTargets(entry, w, bit) == [] <==> forall j :: bit <= j < 32 ==> !Bit(entry, j)
    decreases 32 - bit
  {
    if bit < 32 {
      BitmapBits(entry, w, bit + 1);
      if !Bit(entry, bit) {
        assert BitmapTargets(entry, w, bit) == BitmapTargets(entry, w, bit + 1);
      } else {
        assert |BitmapTargets(entry, w, bit)| >= 1;
        assert exists j :: bit <= j < 32 && Bit(entry, j);
      }
    }
  }

  lemma {:induction false} NoBits(x: nat, m: nat)
    requires x < Pow2(m) && forall k: nat :: k < m ==> !Bit(x, k)
    ensures x == 0
  {
    if m > 0 {
      assert !Bit(x, 0);
      forall k: nat | k < m - 1 ensures !Bit(x / 2, k) { assert !Bit(x, k + 1); }
      NoBits(x / 2, m - 1);
    }
  }

  /** The targets are the encoded ones exactly when the base is zero or no bit precedes the first
      address entry: a leading bitmap is taken relative to 0 instead of the base. */
  lemma RelrTargetsExact(ws: seq<u32>, base: u32)
    ensures RelrTargets(ws, 0, base) == Rebased(ExpandRelr(ws, 0), base) <==> base == 0 || NoLeadingBits(ws)
  {
    LeadingBits(ws, 0, base);
  }

  /** The smallest failing stream: one bitmap with one bit and no address entry. */
  lemma RelrBitmapFirst()
    ensures RelrTargets([3], 0, 0x1000) == [0] && Rebased(ExpandRelr([3], 0), 0x1000) == [0x1000]
  {
    var ws: seq<u32> := [3];
    assert ws[1..] == [];
    OneBit();
    assert RelrTargets(ws, 0, 0x1000) == BitmapTargets(3, 0, 1) + RelrTargets([], Add32(0, 124), 0x1000);
    assert ExpandRelr(ws, 0) == BitmapTargets(3, 0, 1) + ExpandRelr([], Add32(0, 124));
    RebasedOne(0, 0x1000);
  }

  lemma OneBit()
    ensures BitmapTargets(3, 0, 1) == [0]
  {
    assert Bit(3, 1);
    forall j | 2 <= j < 32 ensures !Bit(3, j) { ZeroBit(j - 2); }
    BitmapBits(3, 0, 2);
    assert BitmapTargets(3, 0, 1) == [Add32(0, 0)] + BitmapTargets(3, 0, 2);
  }

  lemma RebasedOne(x: u32, base: u32)
    ensures Rebased([x], base) == [Add32(x, base)]
  {
  }
}
