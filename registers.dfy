/**
 * The emulator's register file: eight general purpose registers, the
 * special purpose registers and the flag byte, whose four flags are
 * active-low (writing a flag as false sets its bit, writing it as true
 * clears it).
 */
module RegisterFile {
  import opened Bits

  /** `REG_TOTAL_NUM`: the number of general purpose registers. */
  const REG_TOTAL_NUM: nat := 8
  /** `MBR_PTR`: the memory buffer register is gp[7]. */
  const MBR_PTR: nat := 7
  /** `SP_PTR`: the stack pointer is gp[5]. */
  const SP_PTR: nat := 5

  /** The general purpose registers as a value. */
  type Gp = g: seq<I16> | |g| == REG_TOTAL_NUM witness [0, 0, 0, 0, 0, 0, 0, 0]

  /** The four flags of the flag byte, each with the value written for it. */
  datatype Flags = OV(on: bool) | CA(on: bool) | ZR(on: bool) | NG(on: bool)

  /** The flag byte layout: `| unused | NG | ZR | CA | OV |`, bit 0 being OV. */
  function Position(f: Flags): (p: nat)
    ensures p < 4
  {
    match f
    case OV(_) => 0
    case CA(_) => 1
    case ZR(_) => 2
    case NG(_) => 3
  }

  /** The single bit at position p, `1 << p`. */
  function BitAt(p: nat): bv8
    requires p < 8
  {
    if p == 0 then 0x01 else if p == 1 then 0x02 else if p == 2 then 0x04 else if p == 3 then 0x08
    else if p == 4 then 0x10 else if p == 5 then 0x20 else if p == 6 then 0x40 else 0x80
  }

  /** Bit p of the flag byte is set. */
  predicate IsSet(b: bv8, p: nat)
    requires p < 8
  {
    b & BitAt(p) != 0
  }

  /** One entry of `change_flags`: `X(false)` sets X's bit, `X(true)` clears it. */
  function ApplyFlag(b: bv8, f: Flags): bv8 {
    if f.on then b & !BitAt(Position(f)) else b | BitAt(Position(f))
  }

  /** `change_flags` on a flag byte: the entries in list order. */
  function ApplyFlags(b: bv8, fs: seq<Flags>): bv8
    decreases |fs|
  {
    if fs == [] then b else ApplyFlag(ApplyFlags(b, fs[..|fs| - 1]), fs[|fs| - 1])
  }

  /**
   * The reference for one bit after a list of entries: the last entry for
   * the flag at position p decides it (set when that entry is false); with
   * no such entry, the bit is as it was.
   */
  function ExpectedBit(b: bv8, fs: seq<Flags>, p: nat): bool
    requires p < 8
    decreases |fs|
  {
    if fs == [] then IsSet(b, p)
    else if Position(fs[|fs| - 1]) == p then !fs[|fs| - 1].on
    else ExpectedBit(b, fs[..|fs| - 1], p)
  }

  /** One entry changes its own bit as the active-low convention says, and no other bit. */
  lemma ApplyFlagBit(b: bv8, f: Flags, p: nat)
    requires p < 8
    ensures IsSet(ApplyFlag(b, f), p) == if Position(f) == p then !f.on else IsSet(b, p)
  {
  }

  /** Every bit after `change_flags` is the one the last entry for it asks for. */
  lemma {:induction false} ApplyFlagsBit(b: bv8, fs: seq<Flags>, p: nat)
    requires p < 8
    ensures IsSet(ApplyFlags(b, fs), p) == ExpectedBit(b, fs, p)
    decreases |fs|
  {
    if fs != [] {
      ApplyFlagsBit(b, fs[..|fs| - 1], p);
      ApplyFlagBit(ApplyFlags(b, fs[..|fs| - 1]), fs[|fs| - 1], p);
    }
  }

  /** A flag byte is fixed by its eight bits. */
  lemma BitsDetermine(a: bv8, b: bv8)
    requires forall p: nat :: p < 8 ==> IsSet(a, p) == IsSet(b, p)
    ensures a == b
  {
    assert IsSet(a, 0) == IsSet(b, 0) && IsSet(a, 1) == IsSet(b, 1);
    assert IsSet(a, 2) == IsSet(b, 2) && IsSet(a, 3) == IsSet(b, 3);
    assert IsSet(a, 4) == IsSet(b, 4) && IsSet(a, 5) == IsSet(b, 5);
    assert IsSet(a, 6) == IsSet(b, 6) && IsSet(a, 7) == IsSet(b, 7);
  }

  /** The unused bits 7..4 are never changed. */
  lemma ApplyFlagsHighBits(b: bv8, fs: seq<Flags>, p: nat)
    requires 4 <= p < 8
    ensures IsSet(ApplyFlags(b, fs), p) == IsSet(b, p)
  {
    ApplyFlagsBit(b, fs, p);
    NoEntryKeepsBit(b, fs, p);
  }

  /** With no entry for position p, the reference keeps bit p. */
  lemma {:induction false} NoEntryKeepsBit(b: bv8, fs: seq<Flags>, p: nat)
    requires p < 8 && forall i :: 0 <= i < |fs| ==> Position(fs[i]) != p
    ensures ExpectedBit(b, fs, p) == IsSet(b, p)
    decreases |fs|
  {
    if fs != [] {
      assert Position(fs[|fs| - 1]) != p;
      NoEntryKeepsBit(b, fs[..|fs| - 1], p);
    }
  }

  /** When some entry is for position p, the reference does not look at the old byte. */
  lemma {:induction false} EntryDecides(a: bv8, b: bv8, fs: seq<Flags>, p: nat)
    requires p < 8 && !ExpectedBitKept(fs, p)
    ensures ExpectedBit(a, fs, p) == ExpectedBit(b, fs, p)
    decreases |fs|
  {
    if Position(fs[|fs| - 1]) != p {
      EntryDecides(a, b, fs[..|fs| - 1], p);
    }
  }

  /** No entry of the list is for position p. */
  predicate ExpectedBitKept(fs: seq<Flags>, p: nat) {
    forall i :: 0 <= i < |fs| ==> Position(fs[i]) != p
  }

  /** Applying the same list twice is applying it once. */
  lemma ApplyFlagsIdempotent(b: bv8, fs: seq<Flags>)
    ensures ApplyFlags(ApplyFlags(b, fs), fs) == ApplyFlags(b, fs)
  {
    var once := ApplyFlags(b, fs);
    forall p: nat | p < 8
      ensures IsSet(ApplyFlags(once, fs), p) == IsSet(once, p)
    {
      ApplyFlagsBit(once, fs, p);
      ApplyFlagsBit(b, fs, p);
      if ExpectedBitKept(fs, p) {
        NoEntryKeepsBit(once, fs, p);
        NoEntryKeepsBit(b, fs, p);
      } else {
        EntryDecides(once, b, fs, p);
      }
    }
    BitsDetermine(ApplyFlags(once, fs), once);
  }

  /** The register file as a value: what an instruction reads and writes. */
  datatype RegState = RegState(gp: Gp, pc: U16, acc: I16, ir: U16, mar: U16, flags: bv8)

  /** The register file, updated in place by the instructions. */
  class Registers {
    const gp: array<I16>
    var pc: U16
    var acc: I16
    var ir: U16
    var mar: U16
    var flags: bv8

    /** `Registers::new`: every register and the flag byte are zero. */
    constructor ()
      ensures fresh(gp) && gp.Length == REG_TOTAL_NUM
      ensures gp[..] == [0, 0, 0, 0, 0, 0, 0, 0]
      ensures pc == 0 && acc == 0 && ir == 0 && mar == 0 && flags == 0
    {
      gp := new I16[REG_TOTAL_NUM](_ => 0);
      pc, acc, ir, mar, flags := 0, 0, 0, 0, 0;
    }

    /** The registers as a value. */
    function State(): RegState
      reads this, gp
      requires gp.Length == REG_TOTAL_NUM
    {
      RegState(gp[..], pc, acc, ir, mar, flags)
    }

    /** `change_flags`: the entries are applied to the flag byte in order; nothing else changes. */
    method ChangeFlags(fs: seq<Flags>)
      modifies this
      ensures flags == ApplyFlags(old(flags), fs)
      ensures pc == old(pc) && acc == old(acc) && ir == old(ir) && mar == old(mar)
    {
      for i := 0 to |fs|
        invariant flags == ApplyFlags(old(flags), fs[..i])
        invariant pc == old(pc) && acc == old(acc) && ir == old(ir) && mar == old(mar)
      {
        assert fs[..i + 1][..i] == fs[..i];
        flags := ApplyFlag(flags, fs[i]);
      }
      assert fs[..|fs|] == fs;
    }
  }
}
