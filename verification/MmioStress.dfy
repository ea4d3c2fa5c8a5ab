/** The threaded MMIO stress program: workers that write every register of their ranges and read it
    back, in any interleaving, over a byte-addressed register file. */
module MmioStress {
  import opened CTypes

  // ----- The register file ---------------------------------------------------------------------

  /** The little-endian bytes of `value`, cut off at `width` bytes. */
  function Bytes(value: nat, width: nat): (bs: seq<Byte>)
    ensures |bs| == width
  {
    if width == 0 then [] else [value % 256] + Bytes(value / 256, width - 1)
  }

  function Value(bs: seq<Byte>): nat {
    if bs == [] then 0 else bs[0] + 256 * Value(bs[1..])
  }

  function Capacity(width: nat): nat {
    if width == 0 then 1 else 256 * Capacity(width - 1)
  }

  lemma {:induction false} ValueOfBytes(value: nat, width: nat)
    requires value < Capacity(width)
    ensures Value(Bytes(value, width)) == value
  {
    if width > 0 {
      ValueOfBytes(value / 256, width - 1);
      assert Bytes(value, width)[1..] == Bytes(value / 256, width - 1);
    }
  }

  type Registers = seq<Byte>

  function Read(mem: Registers, offset: nat, width: nat): nat
    requires offset + width <= |mem|
  {
    Value(mem[offset..offset + width])
  }

  function Write(mem: Registers, offset: nat, width: nat, value: nat): (after: Registers)
    requires offset + width <= |mem|
    ensures |after| == |mem|
  {
    mem[..offset] + Bytes(value, width) + mem[offset + width..]
  }

  lemma ReadOfWrite(mem: Registers, offset: nat, width: nat, value: nat)
    requires offset + width <= |mem| && value < Capacity(width)
    ensures Read(Write(mem, offset, width, value), offset, width) == value
  {
    assert Write(mem, offset, width, value)[offset..offset + width] == Bytes(value, width);
    ValueOfBytes(value, width);
  }

  lemma ReadElsewhere(mem: Registers, offset: nat, width: nat, value: nat, other: nat)
    requires offset + width <= |mem| && other + width <= |mem|
    requires other + width <= offset || offset + width <= other
    ensures Read(Write(mem, offset, width, value), other, width) == Read(mem, other, width)
  {
    assert Write(mem, offset, width, value)[other..other + width] == mem[other..other + width];
  }

  /** No byte outside `lo` up to `hi` differs. */
  predicate ChangesOnly(before: Registers, after: Registers, lo: nat, hi: nat)
    requires lo <= hi <= |before|
  {
    |after| == |before| && after[..lo] == before[..lo] && after[hi..] == before[hi..]
  }

  lemma WriteStaysInside(before: Registers, mem: Registers, lo: nat, hi: nat, offset: nat, width: nat, value: nat)
    requires lo <= hi <= |before| && ChangesOnly(before, mem, lo, hi)
    requires lo <= offset && offset + width <= hi
    ensures ChangesOnly(before, Write(mem, offset, width, value), lo, hi)
  {
    var after := Write(mem, offset, width, value);
    assert after[..lo] == mem[..lo];
    assert after[hi..] == mem[hi..];
  }

  lemma AlignedAreDisjoint(width: nat, a: nat, b: nat)
    requires width == 4 || width == 8
    requires a % width == 0 && b % width == 0 && a < b
    ensures a + width <= b
  {
  }

  lemma NextIsAligned(width: nat, a: nat)
    requires width == 4 || width == 8
    requires a % width == 0
    ensures (a + width) % width == 0
  {
  }

  // ----- Ranges ------------------------------------------------------------------------------------

  /** The number of workers and the size of what each of them covers. The C program has 32 workers
      and 256 KB; all its arithmetic on them is in ints. */
  datatype Setup = Setup(workers: nat, chunk: nat) {
    predicate Valid() {
      workers >= 1 && chunk >= 8 && chunk % 8 == 0 && Size() <= INT_MAX
    }

    function Size(): nat {
      Start(workers)
    }

    /** `i * chunk`, see StartIsProduct. */
    function Start(i: nat): nat {
      if i == 0 then 0 else Start(i - 1) + chunk
    }

    /** The last byte of the range; the workers take it for an exclusive bound. */
    function End(i: nat): int {
      Start(i + 1) - 1
    }
  }

  lemma {:induction false} StartIsProduct(setup: Setup, i: nat)
    ensures setup.Start(i) == i * setup.chunk
  {
    if i > 0 {
      StartIsProduct(setup, i - 1);
    }
  }

  method PrepareOffsets(setup: Setup, startOffset: array<int>, endOffset: array<int>)
    requires setup.Valid() && startOffset.Length == setup.workers == endOffset.Length && startOffset != endOffset
    modifies startOffset, endOffset
    ensures forall i :: 0 <= i < setup.workers ==> startOffset[i] == setup.Start(i) && endOffset[i] == setup.End(i)
  {
    var ii := 0;
    while ii < setup.workers
      invariant 0 <= ii <= setup.workers
      invariant forall i :: 0 <= i < ii ==> startOffset[i] == setup.Start(i) && endOffset[i] == setup.End(i)
    {
      startOffset[ii] := ii * setup.chunk;
      endOffset[ii] := (ii + 1) * setup.chunk - 1;
      StartIsProduct(setup, ii);
      StartIsProduct(setup, ii + 1);
      ii := ii + 1;
    }
  }

  /** The setup of the C program. */
  lemma SetupOfProgram()
    ensures Setup(32, 256 * 1024 / 32).Valid() && Setup(32, 256 * 1024 / 32).Size() == 262144
  {
    StartIsProduct(Setup(32, 8192), 32);
  }

  /** The loop of worker `i` takes `offset`, for accesses of `width` bytes. */
  predicate Covers(setup: Setup, i: nat, width: nat, offset: nat)
    requires width > 0
  {
    offset % width == 0 && setup.Start(i) <= offset < setup.End(i)
  }

  lemma {:induction false} StartIsAligned(setup: Setup, i: nat)
    requires setup.Valid()
    ensures setup.Start(i) % 8 == 0 && setup.Start(i) % 4 == 0
  {
    if i > 0 {
      StartIsAligned(setup, i - 1);
      AlignedSum(setup.Start(i - 1), setup.chunk);
    }
  }

  lemma AlignedSum(a: nat, b: nat)
    requires a % 8 == 0 && b % 8 == 0
    ensures (a + b) % 8 == 0 && (a + b) % 4 == 0
  {
    assert a + b == 8 * (a / 8 + b / 8);
  }

  /** Although a range ends one byte early, it covers every aligned access up to the next range. */
  lemma CoversWholeAccesses(setup: Setup, i: nat, width: nat, offset: nat)
    requires setup.Valid() && (width == 4 || width == 8)
    ensures Covers(setup, i, width, offset) <==>
            offset % width == 0 && setup.Start(i) <= offset && offset + width <= setup.Start(i + 1)
  {
    StartIsAligned(setup, i + 1);
    if offset % width == 0 && offset < setup.Start(i + 1) {
      AlignedAreDisjoint(width, offset, setup.Start(i + 1));
    }
  }

  lemma {:induction false} StartsGrow(setup: Setup, i: nat, j: nat)
    requires i <= j
    ensures setup.Start(i) <= setup.Start(j)
    decreases j - i
  {
    if i < j {
      StartsGrow(setup, i, j - 1);
    }
  }

  lemma {:induction false} RangeOf(setup: Setup, offset: nat, n: nat) returns (i: nat)
    requires offset < setup.Start(n)
    ensures i < n && setup.Start(i) <= offset < setup.Start(i + 1)
  {
    if offset < setup.Start(n - 1) {
      i := RangeOf(setup, offset, n - 1);
    } else {
      i := n - 1;
    }
  }

  /** Every aligned offset of the register file falls to exactly one worker, and no worker goes
      beyond the file. */
  lemma RangesPartition(setup: Setup, width: nat, offset: nat)
    requires setup.Valid() && (width == 4 || width == 8) && offset % width == 0
    ensures offset < setup.Size() ==> exists i: nat :: i < setup.workers && Covers(setup, i, width, offset)
    ensures forall i: nat, j: nat :: Covers(setup, i, width, offset) && Covers(setup, j, width, offset) ==> i == j
    ensures forall i: nat :: i < setup.workers && Covers(setup, i, width, offset) ==> offset + width <= setup.Size()
  {
    if offset < setup.Size() {
      var i := RangeOf(setup, offset, setup.workers);
      StartIsAligned(setup, i + 1);
      AlignedAreDisjoint(width, offset, setup.Start(i + 1));
      CoversWholeAccesses(setup, i, width, offset);
    }
    forall i: nat, j: nat | Covers(setup, i, width, offset) && Covers(setup, j, width, offset)
      ensures i == j
    {
      RangesAreDisjoint(setup, width, offset, i, j);
      RangesAreDisjoint(setup, width, offset, j, i);
    }
    forall i: nat | i < setup.workers && Covers(setup, i, width, offset)
      ensures offset + width <= setup.Size()
    {
      CoversWholeAccesses(setup, i, width, offset);
      StartsGrow(setup, i + 1, setup.workers);
    }
  }

  lemma RangesAreDisjoint(setup: Setup, width: nat, offset: nat, i: nat, j: nat)
    requires setup.Valid() && (width == 4 || width == 8)
    requires Covers(setup, i, width, offset) && Covers(setup, j, width, offset)
    ensures i >= j
  {
    CoversWholeAccesses(setup, i, width, offset);
    CoversWholeAccesses(setup, j, width, offset);
    if i < j {
      StartsGrow(setup, i + 1, j);
    }
  }

  // ----- One worker -----------------------------------------------------------------------------------

  class RegisterFile {
    var mem: Registers

    constructor (mem: Registers)
      ensures this.mem == mem
    {
      this.mem := mem;
    }
  }

  function Width(enable64Bit: bool): nat {
    if enable64Bit then 8 else 4
  }

  /** What a readback showed at an offset. */
  datatype Readback = Readback(width: nat, offset: nat, value: nat)

  /** The readbacks of the accesses from `lo` up to `hi`. */
  function Sweep(mem: Registers, width: nat, lo: nat, hi: nat): seq<Readback>
    requires width > 0
    requires hi <= |mem|
    decreases hi
  {
    if hi < lo + width then []
    else Sweep(mem, width, lo, hi - width) + [Readback(width, hi - width, Read(mem, hi - width, width))]
  }

  /** Run alone, a worker leaves every register of its range holding its offset and all others alone,
      or reads every one of them in order. */
  method MMIOWorkerThread(setup: Setup, i: nat, enable64Bit: bool, writeNotRead: bool, regs: RegisterFile)
    returns (readbacks: seq<Readback>)
    requires setup.Valid() && i < setup.workers && |regs.mem| >= setup.Size()
    modifies regs
    ensures setup.Start(i) <= setup.Start(i + 1) <= |old(regs.mem)|
    ensures ChangesOnly(old(regs.mem), regs.mem, setup.Start(i), setup.Start(i + 1))
    ensures writeNotRead ==>
              readbacks == [] && HoldOffsetsUpTo(setup, i, Width(enable64Bit), regs.mem, setup.Start(i + 1))
    ensures !writeNotRead ==>
              && regs.mem == old(regs.mem)
              && readbacks == Sweep(regs.mem, Width(enable64Bit), setup.Start(i), setup.Start(i + 1))
  {
    StartIsAligned(setup, i);
    StartIsAligned(setup, i + 1);
    StartsGrow(setup, i + 1, setup.workers);
    ghost var width := Width(enable64Bit);
    readbacks := [];
    var offset := setup.Start(i);
    while offset < setup.End(i)
      invariant setup.Start(i) <= offset <= setup.Start(i + 1) && offset % width == 0
      invariant ChangesOnly(old(regs.mem), regs.mem, setup.Start(i), setup.Start(i + 1))
      invariant writeNotRead ==> readbacks == [] && HoldOffsetsUpTo(setup, i, width, regs.mem, offset)
      invariant !writeNotRead ==> regs.mem == old(regs.mem)
      invariant !writeNotRead ==> readbacks == Sweep(regs.mem, width, setup.Start(i), offset)
      decreases setup.Start(i + 1) - offset
    {
      AlignedAreDisjoint(width, offset, setup.Start(i + 1));
      NextIsAligned(width, offset);
      if writeNotRead {
        WriteKeepsHeld(setup, i, width, regs.mem, offset);
        WriteStaysInside(old(regs.mem), regs.mem, setup.Start(i), setup.Start(i + 1), offset, width, offset);
      }
      if enable64Bit {
        if writeNotRead {
          regs.mem := Write(regs.mem, offset, 8, offset);
        } else {
          readbacks := readbacks + [Readback(8, offset, Read(regs.mem, offset, 8))];
        }
        offset := offset + 8;
      } else {
        if writeNotRead {
          regs.mem := Write(regs.mem, offset, 4, offset);
        } else {
          readbacks := readbacks + [Readback(4, offset, Read(regs.mem, offset, 4))];
        }
        offset := offset + 4;
      }
    }
    if offset < setup.Start(i + 1) {
      AlignedAreDisjoint(width, offset, setup.Start(i + 1));
    }
  }

  /** The registers of worker `i` in front of `limit` hold their offsets. */
  predicate HoldOffsetsUpTo(setup: Setup, i: nat, width: nat, mem: Registers, limit: nat)
    requires width == 4 || width == 8
  {
    forall o: nat :: Covers(setup, i, width, o) && o < limit ==> o + width <= |mem| && Read(mem, o, width) == o
  }

  lemma CapacityOf(width: nat)
    requires width == 4 || width == 8
    ensures Capacity(width) > INT_MAX
  {
    assert Capacity(4) == 0x1_0000_0000;
    assert Capacity(6) == 0x1_0000_0000_0000;
  }

  /** Writing an offset at itself disturbs no register that holds its own. */
  lemma WriteKeepsRegister(setup: Setup, width: nat, mem: Registers, offset: nat, o: nat)
    requires setup.Valid() && (width == 4 || width == 8) && |mem| >= setup.Size()
    requires offset % width == 0 && offset + width <= setup.Size() && o % width == 0 && o + width <= setup.Size()
    requires o != offset ==> Read(mem, o, width) == o
    ensures Read(Write(mem, offset, width, offset), o, width) == o
  {
    if o == offset {
      CapacityOf(width);
      ReadOfWrite(mem, offset, width, offset);
    } else {
      if o < offset { AlignedAreDisjoint(width, o, offset); } else { AlignedAreDisjoint(width, offset, o); }
      ReadElsewhere(mem, offset, width, offset, o);
    }
  }

  lemma WriteKeepsHeld(setup: Setup, i: nat, width: nat, mem: Registers, offset: nat)
    requires setup.Valid() && (width == 4 || width == 8) && |mem| >= setup.Size() && i < setup.workers
    requires Covers(setup, i, width, offset) && offset + width <= setup.Size()
    requires HoldOffsetsUpTo(setup, i, width, mem, offset)
    ensures HoldOffsetsUpTo(setup, i, width, Write(mem, offset, width, offset), offset + width)
  {
    CoversWholeAccesses(setup, i, width, offset);
    StartsGrow(setup, i + 1, setup.workers);
    forall o: nat | Covers(setup, i, width, o) && o < offset + width
      ensures o + width <= |mem| && Read(Write(mem, offset, width, offset), o, width) == o
    {
      CoversWholeAccesses(setup, i, width, o);
      if o > offset { AlignedAreDisjoint(width, offset, o); }
      WriteKeepsRegister(setup, width, mem, offset, o);
    }
  }

  // ----- All workers together ----------------------------------------------------------------------------

  /** The main thread goes through four phases; in each it creates all workers and joins them in
      order. Phases 0 and 2 write, 1 and 3 read; the first two access 32 bits, the others 64. */
  datatype State = State(
    mem: Registers,
    phase: nat,
    created: nat,
    joined: nat,
    offsets: seq<nat>,      // the loop variables of the workers
    log: seq<Readback>
  )

  function PhaseWidth(phase: nat): nat {
    if phase < 2 then 4 else 8
  }

  predicate PhaseWrites(phase: nat) {
    phase % 2 == 0
  }

  ghost predicate Init(setup: Setup, s: State) {
    && |s.mem| >= setup.Size() && |s.offsets| == setup.workers
    && s.phase == s.created == s.joined == 0 && s.log == []
  }

  datatype Step = Create | Access(i: nat) | Join | NextPhase

  /** Which steps can be taken. An access has to lie inside the register file, which NoFault shows
      to be no restriction; pthread_join waits for the worker to end. */
  predicate Enabled(setup: Setup, s: State, step: Step) {
    match step
    case Create => s.joined == 0 && s.created < setup.workers && s.created < |s.offsets|
    case Access(i) =>
      && i < s.created && i < |s.offsets| && s.offsets[i] < setup.End(i)
      && s.offsets[i] + PhaseWidth(s.phase) <= |s.mem|
    case Join =>
      && s.created == setup.workers && s.joined < setup.workers && s.joined < |s.offsets|
      && s.offsets[s.joined] >= setup.End(s.joined)
    case NextPhase => s.joined == setup.workers && s.phase < 3
  }

  function Apply(setup: Setup, s: State, step: Step): State
    requires Enabled(setup, s, step)
  {
    match step
    case Create => s.(offsets := s.offsets[s.created := setup.Start(s.created)], created := s.created + 1)
    case Access(i) => ApplyAccess(setup, s, i)
    case Join => s.(joined := s.joined + 1)
    case NextPhase => s.(phase := s.phase + 1, created := 0, joined := 0)
  }

  function ApplyAccess(setup: Setup, s: State, i: nat): State
    requires Enabled(setup, s, Access(i))
  {
    var width, offset := PhaseWidth(s.phase), s.offsets[i];
    var s1 := s.(offsets := s.offsets[i := offset + width]);
    if PhaseWrites(s.phase) then s1.(mem := Write(s.mem, offset, width, offset))
    else s1.(log := s.log + [Readback(width, offset, Read(s.mem, offset, width))])
  }

  // ----- The invariant --------------------------------------------------------------------------------------

  predicate OffsetFits(setup: Setup, s: State, i: nat)
    requires i < |s.offsets|
  {
    && s.offsets[i] % PhaseWidth(s.phase) == 0
    && setup.Start(i) <= s.offsets[i] <= setup.Start(i + 1)
    && (i < s.joined ==> s.offsets[i] == setup.Start(i + 1))
  }

  predicate CountersFit(setup: Setup, s: State) {
    && setup.Valid() && |s.mem| >= setup.Size() && |s.offsets| == setup.workers && s.phase < 4
    && s.joined <= s.created <= setup.workers && (s.joined > 0 ==> s.created == setup.workers)
    && forall i :: 0 <= i < s.created ==> OffsetFits(setup, s, i)
  }

  /** While workers write, each has filled its range up to its loop variable; while they read, all
      ranges are filled. */
  predicate RegistersFit(setup: Setup, s: State)
    requires CountersFit(setup, s)
  {
    var width := PhaseWidth(s.phase);
    if PhaseWrites(s.phase) then
      forall i :: 0 <= i < s.created ==> HoldOffsetsUpTo(setup, i, width, s.mem, s.offsets[i])
    else
      forall i: nat :: i < setup.workers ==> RangeIsHeld(setup, i, width, s.mem)
  }

  predicate RangeIsHeld(setup: Setup, i: nat, width: nat, mem: Registers)
    requires width == 4 || width == 8
  {
    HoldOffsetsUpTo(setup, i, width, mem, setup.Start(i + 1))
  }

  predicate IsRight(r: Readback) {
    r.value == r.offset
  }

  /** The registers of worker `i` in front of `limit` have been read back. */
  predicate ReadUpTo(setup: Setup, i: nat, width: nat, log: seq<Readback>, limit: nat)
    requires width > 0
  {
    forall o: nat :: Covers(setup, i, width, o) && o < limit ==> Readback(width, o, o) in log
  }

  predicate RangeIsRead(setup: Setup, i: nat, width: nat, log: seq<Readback>)
    requires width > 0
  {
    ReadUpTo(setup, i, width, log, setup.Start(i + 1))
  }

  predicate LogFits(setup: Setup, s: State)
    requires CountersFit(setup, s)
  {
    && (forall k :: 0 <= k < |s.log| ==> IsRight(s.log[k]))
    && (!PhaseWrites(s.phase) ==>
          forall i :: 0 <= i < s.created ==> ReadUpTo(setup, i, PhaseWidth(s.phase), s.log, s.offsets[i]))
    && (s.phase >= 2 ==> forall i: nat :: i < setup.workers ==> RangeIsRead(setup, i, 4, s.log))
  }

  predicate Invariant(setup: Setup, s: State) {
    CountersFit(setup, s) && RegistersFit(setup, s) && LogFits(setup, s)
  }

  lemma AccessIsInside(setup: Setup, s: State, i: nat)
    requires CountersFit(setup, s) && i < s.created && s.offsets[i] < setup.End(i)
    ensures var width, offset := PhaseWidth(s.phase), s.offsets[i];
            && Covers(setup, i, width, offset)
            && (offset + width) % width == 0 && offset + width <= setup.Start(i + 1) <= setup.Size()
  {
    var width, offset := PhaseWidth(s.phase), s.offsets[i];
    assert OffsetFits(setup, s, i);
    StartIsAligned(setup, i + 1);
    AlignedAreDisjoint(width, offset, setup.Start(i + 1));
    NextIsAligned(width, offset);
    StartsGrow(setup, i + 1, setup.workers);
  }

  /** What another worker writes leaves filled registers filled. */
  lemma WriteKeepsOther(setup: Setup, j: nat, width: nat, mem: Registers, offset: nat, limit: nat)
    requires setup.Valid() && (width == 4 || width == 8) && |mem| >= setup.Size() && j < setup.workers
    requires offset % width == 0 && offset + width <= setup.Size()
    requires HoldOffsetsUpTo(setup, j, width, mem, limit)
    ensures HoldOffsetsUpTo(setup, j, width, Write(mem, offset, width, offset), limit)
  {
    StartsGrow(setup, j + 1, setup.workers);
    forall o: nat | Covers(setup, j, width, o) && o < limit
      ensures o + width <= |mem| && Read(Write(mem, offset, width, offset), o, width) == o
    {
      CoversWholeAccesses(setup, j, width, o);
      WriteKeepsRegister(setup, width, mem, offset, o);
    }
  }

  lemma WriteKeepsInvariant(setup: Setup, s: State, i: nat)
    requires Invariant(setup, s) && Enabled(setup, s, Access(i)) && PhaseWrites(s.phase)
    ensures Invariant(setup, ApplyAccess(setup, s, i))
  {
    AccessIsInside(setup, s, i);
    var width, offset, s' := PhaseWidth(s.phase), s.offsets[i], ApplyAccess(setup, s, i);
    forall j | 0 <= j < s'.created
      ensures OffsetFits(setup, s', j) && HoldOffsetsUpTo(setup, j, width, s'.mem, s'.offsets[j])
    {
      assert OffsetFits(setup, s, j);
      if j == i {
        WriteKeepsHeld(setup, i, width, s.mem, offset);
      } else {
        WriteKeepsOther(setup, j, width, s.mem, offset, s.offsets[j]);
      }
    }
  }

  lemma ReadKeepsInvariant(setup: Setup, s: State, i: nat)
    requires Invariant(setup, s) && Enabled(setup, s, Access(i)) && !PhaseWrites(s.phase)
    ensures Invariant(setup, ApplyAccess(setup, s, i))
  {
    AccessIsInside(setup, s, i);
    var width, offset, s' := PhaseWidth(s.phase), s.offsets[i], ApplyAccess(setup, s, i);
    assert RangeIsHeld(setup, i, width, s.mem);
    assert s'.log == s.log + [Readback(width, offset, offset)];
    forall j | 0 <= j < s'.created
      ensures OffsetFits(setup, s', j) && ReadUpTo(setup, j, width, s'.log, s'.offsets[j])
    {
      assert OffsetFits(setup, s, j) && ReadUpTo(setup, j, width, s.log, s.offsets[j]);
      if j == i {
        forall o: nat | Covers(setup, i, width, o) && o < offset + width
          ensures Readback(width, o, o) in s'.log
        {
          if o > offset { AlignedAreDisjoint(width, offset, o); }
        }
      }
    }
    if s.phase >= 2 {
      forall j: nat | j < setup.workers
        ensures RangeIsRead(setup, j, 4, s'.log)
      {
        assert RangeIsRead(setup, j, 4, s.log);
      }
    }
  }

  lemma JoinKeepsInvariant(setup: Setup, s: State)
    requires Invariant(setup, s) && Enabled(setup, s, Join)
    ensures Invariant(setup, Apply(setup, s, Join))
  {
    var s' := Apply(setup, s, Join);
    forall j | 0 <= j < s'.created
      ensures OffsetFits(setup, s', j)
    {
      assert OffsetFits(setup, s, j);
      if j == s.joined && s.offsets[j] < setup.Start(j + 1) {
        StartIsAligned(setup, j + 1);
        AlignedAreDisjoint(PhaseWidth(s.phase), s.offsets[j], setup.Start(j + 1));
      }
    }
  }

  lemma CreateKeepsInvariant(setup: Setup, s: State)
    requires Invariant(setup, s) && Enabled(setup, s, Create)
    ensures Invariant(setup, Apply(setup, s, Create))
  {
    var s' := Apply(setup, s, Create);
    StartIsAligned(setup, s.created);
    forall j | 0 <= j < s'.created
      ensures OffsetFits(setup, s', j)
    {
      assert j < s.created ==> OffsetFits(setup, s, j);
    }
  }

  lemma NextPhaseKeepsInvariant(setup: Setup, s: State)
    requires Invariant(setup, s) && Enabled(setup, s, NextPhase)
    ensures Invariant(setup, Apply(setup, s, NextPhase))
  {
    var width := PhaseWidth(s.phase);
    forall j: nat | j < setup.workers
      ensures PhaseWrites(s.phase) ==> RangeIsHeld(setup, j, width, s.mem)
      ensures !PhaseWrites(s.phase) ==> RangeIsRead(setup, j, width, s.log)
    {
      assert OffsetFits(setup, s, j);
      assert s.offsets[j] == setup.Start(j + 1);
    }
  }

  lemma InvariantIsKept(setup: Setup, s: State, step: Step)
    requires Invariant(setup, s) && Enabled(setup, s, step)
    ensures Invariant(setup, Apply(setup, s, step))
  {
    match step
    case Create => CreateKeepsInvariant(setup, s);
    case Access(i) =>
      if PhaseWrites(s.phase) { WriteKeepsInvariant(setup, s, i); } else { ReadKeepsInvariant(setup, s, i); }
    case Join => JoinKeepsInvariant(setup, s);
    case NextPhase => NextPhaseKeepsInvariant(setup, s);
  }

  // ----- Every interleaving ------------------------------------------------------------------------------------

  /** A run in which the main thread and the workers take their steps in any order. */
  ghost predicate IsRun(setup: Setup, states: seq<State>, steps: seq<Step>) {
    && setup.Valid() && |states| == |steps| + 1 && Init(setup, states[0])
    && forall i :: 0 <= i < |steps| ==>
         Enabled(setup, states[i], steps[i]) && states[i + 1] == Apply(setup, states[i], steps[i])
  }

  lemma {:induction false} InvariantOfRun(setup: Setup, states: seq<State>, steps: seq<Step>, k: nat)
    requires IsRun(setup, states, steps) && k < |states|
    ensures Invariant(setup, states[k])
  {
    if k > 0 {
      InvariantOfRun(setup, states, steps, k - 1);
      InvariantIsKept(setup, states[k - 1], steps[k - 1]);
    }
  }

  /** No worker ever reads back anything but the offset, whatever the interleaving. */
  lemma ReadbacksAreRight(setup: Setup, states: seq<State>, steps: seq<Step>, k: nat)
    requires IsRun(setup, states, steps) && k < |states|
    ensures forall r :: r in states[k].log ==> r.value == r.offset
  {
    InvariantOfRun(setup, states, steps, k);
    forall r | r in states[k].log
      ensures r.value == r.offset
    {
      var n :| 0 <= n < |states[k].log| && states[k].log[n] == r;
      assert IsRight(states[k].log[n]);
    }
  }

  predicate IsFinal(setup: Setup, s: State) {
    s.phase == 3 && s.joined == setup.workers
  }

  /** When the program is through, every aligned register has been read back, first with 32 and
      then with 64 bits. */
  lemma EverythingIsReadBack(setup: Setup, states: seq<State>, steps: seq<Step>, k: nat, offset: nat)
    requires IsRun(setup, states, steps) && k < |states| && IsFinal(setup, states[k]) && offset < setup.Size()
    ensures offset % 4 == 0 ==> Readback(4, offset, offset) in states[k].log
    ensures offset % 8 == 0 ==> Readback(8, offset, offset) in states[k].log
  {
    InvariantOfRun(setup, states, steps, k);
    var s := states[k];
    if offset % 4 == 0 {
      RangesPartition(setup, 4, offset);
      var i: nat :| i < setup.workers && Covers(setup, i, 4, offset);
      assert RangeIsRead(setup, i, 4, s.log);
    }
    if offset % 8 == 0 {
      RangesPartition(setup, 8, offset);
      var i: nat :| i < setup.workers && Covers(setup, i, 8, offset);
      assert OffsetFits(setup, s, i) && ReadUpTo(setup, i, 8, s.log, s.offsets[i]);
    }
  }

  /** No access ever leaves the register file: a worker that is not through can always go on. */
  lemma NoFault(setup: Setup, states: seq<State>, steps: seq<Step>, k: nat, i: nat)
    requires IsRun(setup, states, steps) && k < |states|
    requires i < states[k].created && i < |states[k].offsets| && states[k].offsets[i] < setup.End(i)
    ensures Enabled(setup, states[k], Access(i))
    ensures Covers(setup, i, PhaseWidth(states[k].phase), states[k].offsets[i])
  {
    InvariantOfRun(setup, states, steps, k);
    AccessIsInside(setup, states[k], i);
  }

  /** The program never hangs: until it is through, some thread can take a step. */
  lemma NoDeadlock(setup: Setup, states: seq<State>, steps: seq<Step>, k: nat)
    requires IsRun(setup, states, steps) && k < |states| && !IsFinal(setup, states[k])
    ensures exists step :: Enabled(setup, states[k], step)
  {
    InvariantOfRun(setup, states, steps, k);
    var s := states[k];
    if s.created < setup.workers {
      assert Enabled(setup, s, Create);
    } else if s.joined == setup.workers {
      assert Enabled(setup, s, NextPhase);
    } else if s.offsets[s.joined] < setup.End(s.joined) {
      AccessIsInside(setup, s, s.joined);
      assert Enabled(setup, s, Access(s.joined));
    } else {
      assert Enabled(setup, s, Join);
    }
  }

  // ----- Every run ends -------------------------------------------------------------------------------------------

  /** How far the first `n` workers have got in this phase, in bytes. */
  function Progress(setup: Setup, offsets: seq<nat>, n: nat): int
    requires n <= |offsets|
  {
    if n == 0 then 0 else Progress(setup, offsets, n - 1) + offsets[n - 1] - setup.Start(n - 1)
  }

  /** Eight times the number of accesses that cover `bytes` bytes. */
  function AccessWork(phase: nat, bytes: int): int {
    if phase < 2 then bytes + bytes else bytes
  }

  /** Eight times the number of steps of a whole phase, its last step included. */
  function PhaseWork(setup: Setup, phase: nat): int {
    16 * setup.workers + 8 + AccessWork(phase, setup.Size())
  }

  function WorkBefore(setup: Setup, phase: nat): int {
    if phase == 0 then 0 else WorkBefore(setup, phase - 1) + PhaseWork(setup, phase - 1)
  }

  /** Eight times the number of steps that lead to a state. */
  function Work(setup: Setup, s: State): int
    requires s.created <= |s.offsets|
  {
    WorkBefore(setup, s.phase) + 8 * s.created + 8 * s.joined
    + AccessWork(s.phase, Progress(setup, s.offsets, s.created))
  }

  lemma {:induction false} ProgressOfUpdate(setup: Setup, offsets: seq<nat>, n: nat, i: nat, offset: nat)
    requires n <= |offsets| && i < |offsets|
    ensures Progress(setup, offsets[i := offset], n)
            == Progress(setup, offsets, n) + (if i < n then offset - offsets[i] else 0)
  {
    if n > 0 {
      ProgressOfUpdate(setup, offsets, n - 1, i, offset);
    }
  }

  lemma {:induction false} ProgressIsBounded(setup: Setup, s: State, n: nat)
    requires CountersFit(setup, s) && n <= s.created
    ensures Progress(setup, s.offsets, n) <= setup.Start(n)
    ensures n <= s.joined ==> Progress(setup, s.offsets, n) == setup.Start(n)
  {
    if n > 0 {
      ProgressIsBounded(setup, s, n - 1);
      assert OffsetFits(setup, s, n - 1);
    }
  }

  predicate IsWork(setup: Setup, s: State, next: State) {
    s.created <= |s.offsets| && next.created <= |next.offsets| && Work(setup, next) == Work(setup, s) + 8
  }

  lemma AccessIsWork(setup: Setup, s: State, i: nat)
    requires CountersFit(setup, s) && Enabled(setup, s, Access(i))
    ensures IsWork(setup, s, ApplyAccess(setup, s, i))
  {
    ProgressOfUpdate(setup, s.offsets, s.created, i, s.offsets[i] + PhaseWidth(s.phase));
  }

  lemma CreateIsWork(setup: Setup, s: State)
    requires CountersFit(setup, s) && Enabled(setup, s, Create)
    ensures IsWork(setup, s, Apply(setup, s, Create))
  {
    ProgressOfUpdate(setup, s.offsets, s.created, s.created, setup.Start(s.created));
  }

  lemma NextPhaseIsWork(setup: Setup, s: State)
    requires CountersFit(setup, s) && Enabled(setup, s, NextPhase)
    ensures IsWork(setup, s, Apply(setup, s, NextPhase))
  {
    ProgressIsBounded(setup, s, s.created);
    assert WorkBefore(setup, s.phase + 1) == WorkBefore(setup, s.phase) + PhaseWork(setup, s.phase);
  }

  lemma StepIsWork(setup: Setup, s: State, step: Step)
    requires Invariant(setup, s) && Enabled(setup, s, step)
    ensures IsWork(setup, s, Apply(setup, s, step))
  {
    match step
    case Create => CreateIsWork(setup, s);
    case Access(i) => AccessIsWork(setup, s, i);
    case Join =>
    case NextPhase => NextPhaseIsWork(setup, s);
  }

  lemma {:induction false} WorkOfRun(setup: Setup, states: seq<State>, steps: seq<Step>, k: nat)
    requires IsRun(setup, states, steps) && k < |states|
    ensures states[k].created <= |states[k].offsets| && Work(setup, states[k]) == 8 * k
  {
    InvariantOfRun(setup, states, steps, k);
    if k > 0 {
      WorkOfRun(setup, states, steps, k - 1);
      InvariantOfRun(setup, states, steps, k - 1);
      StepIsWork(setup, states[k - 1], steps[k - 1]);
    }
  }

  /** No run is longer than one access for every register and phase, one creation and one join for
      every worker and phase, and the three changes of phase; the final runs take exactly as many
      steps, so no register is accessed twice in a phase. */
  lemma RunsEnd(setup: Setup, states: seq<State>, steps: seq<Step>)
    requires IsRun(setup, states, steps)
    ensures 8 * |steps| <= 8 * (8 * setup.workers + 3) + 6 * setup.Size()
    ensures 8 * |steps| == 8 * (8 * setup.workers + 3) + 6 * setup.Size() <==> IsFinal(setup, states[|steps|])
  {
    WorkOfRun(setup, states, steps, |steps|);
    InvariantOfRun(setup, states, steps, |steps|);
    WorkIsBounded(setup, states[|steps|]);
  }

  lemma WorkIsBounded(setup: Setup, s: State)
    requires CountersFit(setup, s)
    ensures Work(setup, s) <= 64 * setup.workers + 24 + 6 * setup.Size()
    ensures Work(setup, s) == 64 * setup.workers + 24 + 6 * setup.Size() <==> IsFinal(setup, s)
  {
    ProgressIsBounded(setup, s, s.created);
    StartsGrow(setup, s.created, setup.workers);
    WorkBeforeEach(setup, s.phase);
  }

  lemma WorkBeforeEach(setup: Setup, phase: nat)
    requires phase < 4
    ensures phase == 1 ==> WorkBefore(setup, phase) == 16 * setup.workers + 8 + 2 * setup.Size()
    ensures phase == 2 ==> WorkBefore(setup, phase) == 32 * setup.workers + 16 + 4 * setup.Size()
    ensures phase == 3 ==> WorkBefore(setup, phase) == 48 * setup.workers + 24 + 5 * setup.Size()
  {
    assert WorkBefore(setup, 0) == 0;
    assert WorkBefore(setup, 1) == WorkBefore(setup, 0) + PhaseWork(setup, 0);
    assert WorkBefore(setup, 2) == WorkBefore(setup, 1) + PhaseWork(setup, 1);
    assert WorkBefore(setup, 3) == WorkBefore(setup, 2) + PhaseWork(setup, 2);
  }
}
