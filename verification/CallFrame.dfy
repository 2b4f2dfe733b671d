/** Location advances in call frame information, section 6.4.2.1 of DWARF Version 4. */
module CallFrame {
  import opened Values
  import opened Leb128

  const CFA_ADVANCE_LOC := 0x40          // with the factored delta in the low six bits
  const CFA_ADVANCE_LOC1: Byte := 0x02
  const CFA_ADVANCE_LOC2: Byte := 0x03
  const CFA_ADVANCE_LOC4: Byte := 0x04

  /** The shortest instruction for a factored advance; more than 32 bits of it are refused. */
  function EncodeAdvance(factor: nat): (bytes: seq<Byte>)
    ensures |bytes| == if factor < 0x40 then 1 else if factor < 0x100 then 2 else if factor < 0x1_0000 then 3 else 5
  {
    if factor <= 63 then [CFA_ADVANCE_LOC + factor]
    else if factor <= 0xFF then [CFA_ADVANCE_LOC1, factor]
    else if factor <= 0xFFFF then [CFA_ADVANCE_LOC2] + LittleEndian(factor, 2)
    else [CFA_ADVANCE_LOC4] + LittleEndian(factor, 4)
  }

  /** One advance instruction at the head of the bytes: the factored delta and what follows. */
  function DecodeAdvance(bytes: seq<Byte>): Parsed<nat> {
    if bytes == [] then Truncated
    else
      var byte: int := bytes[0];
      if byte / 64 == 1 then Parsed(byte % 64, bytes[1..])
      else if bytes[0] == 0x02 && |bytes| >= 2 then Parsed(FromLittleEndian(bytes[1..2]), bytes[2..])
      else if bytes[0] == 0x03 && |bytes| >= 3 then Parsed(FromLittleEndian(bytes[1..3]), bytes[3..])
      else if bytes[0] == 0x04 && |bytes| >= 5 then Parsed(FromLittleEndian(bytes[1..5]), bytes[5..])
      else Truncated
  }

  lemma LimitValues()
    ensures Limit(1) == 0x100 && Limit(2) == 0x1_0000 && Limit(4) == 0x1_0000_0000
  {
    assert Limit(3) == 0x100_0000;
  }

  /** All four encodings decode to the advance. */
  lemma AdvanceRoundTrip(factor: nat, rest: seq<Byte>)
    requires factor <= 0xFFFF_FFFF
    ensures DecodeAdvance(EncodeAdvance(factor) + rest) == Parsed(factor, rest)
  {
    var bytes := EncodeAdvance(factor) + rest;
    if factor <= 63 {
      assert bytes[1..] == rest;
    } else if factor <= 0xFF {
      assert bytes[1..2] == LittleEndian(factor, 1) && bytes[2..] == rest;
      LimitValues();
      LittleEndianRoundTrip(factor, 1);
    } else if factor <= 0xFFFF {
      assert bytes[1..3] == LittleEndian(factor, 2) && bytes[3..] == rest;
      LimitValues();
      LittleEndianRoundTrip(factor, 2);
    } else {
      assert bytes[1..5] == LittleEndian(factor, 4) && bytes[5..] == rest;
      LimitValues();
      LittleEndianRoundTrip(factor, 4);
    }
  }

  /** The location after a run of advance instructions. */
  function Location(codeAlignmentFactor: nat, bytes: seq<Byte>, start: nat): Parsed<nat>
    decreases |bytes|
  {
    if bytes == [] then Parsed(start, [])
    else
      match DecodeAdvance(bytes)
      case Truncated => Truncated
      case Parsed(factor, rest) =>
        if |rest| < |bytes| then Location(codeAlignmentFactor, rest, start + factor * codeAlignmentFactor)
          else Truncated
  }

  lemma {:induction false} LocationThrough(codeAlignmentFactor: nat, bytes: seq<Byte>, start: nat, middle: nat,
                                           more: seq<Byte>)
    requires Location(codeAlignmentFactor, bytes, start) == Parsed(middle, [])
    ensures Location(codeAlignmentFactor, bytes + more, start) == Location(codeAlignmentFactor, more, middle)
    decreases |bytes|
  {
    hide DecodeAdvance;
    if bytes == [] {
      assert bytes + more == more;
    } else {
      var parsed := DecodeAdvance(bytes);
      DecodeAdvanceMore(bytes, more);
      LocationThrough(codeAlignmentFactor, parsed.rest, start + parsed.value * codeAlignmentFactor, middle, more);
    }
  }

  /** Bytes behind an instruction do not matter to it. */
  lemma DecodeAdvanceMore(bytes: seq<Byte>, more: seq<Byte>)
    requires DecodeAdvance(bytes).Parsed?
    ensures DecodeAdvance(bytes + more) == Parsed(DecodeAdvance(bytes).value, DecodeAdvance(bytes).rest + more)
  {
    hide FromLittleEndian;
    var all := bytes + more;
    assert all[1..] == bytes[1..] + more;
    if |bytes| >= 2 { assert all[1..2] == bytes[1..2] && all[2..] == bytes[2..] + more; }
    if |bytes| >= 3 { assert all[1..3] == bytes[1..3] && all[3..] == bytes[3..] + more; }
    if |bytes| >= 5 { assert all[1..5] == bytes[1..5] && all[5..] == bytes[5..] + more; }
  }

  /** The builder of call frame instructions; only its advances are modelled. */
  class CallFrameBuilder {
    const codeAlignmentFactor: nat
    const fdeInitialPC: nat
    var buffer: seq<Byte>
    var currentPC: nat

    /** The advances so far lead to the current program counter. */
    ghost predicate Valid()
      reads this
    {
      codeAlignmentFactor > 0 && Location(codeAlignmentFactor, buffer, fdeInitialPC) == Parsed(currentPC, [])
    }

    constructor (codeAlignmentFactor: nat, pc: nat)
      requires codeAlignmentFactor > 0
      ensures Valid() && currentPC == fdeInitialPC == pc && this.codeAlignmentFactor == codeAlignmentFactor
              && buffer == []
    {
      this.codeAlignmentFactor, fdeInitialPC, buffer, currentPC := codeAlignmentFactor, pc, [], pc;
    }

    /** The decoded location follows the program counter exactly when the advance is a multiple of the alignment. */
    method SetPC(pc: nat)
      requires Valid() && currentPC <= pc && (pc - currentPC) / codeAlignmentFactor <= 0xFFFF_FFFF
      modifies this`buffer, this`currentPC
      ensures currentPC == pc
      ensures Location(codeAlignmentFactor, buffer, fdeInitialPC)
              == Parsed(old(currentPC) + (pc - old(currentPC)) / codeAlignmentFactor * codeAlignmentFactor, [])
      ensures Valid() <==> (pc - old(currentPC)) % codeAlignmentFactor == 0
    {
      var advance := pc - currentPC;
      var advanceFactor := advance / codeAlignmentFactor;
      assert advance == advance / codeAlignmentFactor * codeAlignmentFactor + advance % codeAlignmentFactor
             && (advance == 0 ==> advance / codeAlignmentFactor == 0);
      if advance != 0 {
        AdvanceLocates(codeAlignmentFactor, buffer, fdeInitialPC, currentPC, advanceFactor);
        buffer := buffer + EncodeAdvance(advanceFactor);
      }
      currentPC := pc;
    }
  }

  lemma AdvanceLocates(codeAlignmentFactor: nat, buffer: seq<Byte>, start: nat, current: nat, factor: nat)
    requires Location(codeAlignmentFactor, buffer, start) == Parsed(current, []) && factor <= 0xFFFF_FFFF
    ensures Location(codeAlignmentFactor, buffer + EncodeAdvance(factor), start)
            == Parsed(current + factor * codeAlignmentFactor, [])
  {
    LocationThrough(codeAlignmentFactor, buffer, start, current, EncodeAdvance(factor));
    AdvanceRoundTrip(factor, []);
    assert EncodeAdvance(factor) + [] == EncodeAdvance(factor);
  }

  /** A sequence of program counters that do not decrease, each a multiple of the alignment from the one before. */
  predicate Advances(codeAlignmentFactor: nat, start: nat, pcs: seq<nat>)
    requires codeAlignmentFactor > 0
    decreases |pcs|
  {
    pcs == [] ||
    (start <= pcs[0] && (pcs[0] - start) % codeAlignmentFactor == 0
     && (pcs[0] - start) / codeAlignmentFactor <= 0xFFFF_FFFF
     && Advances(codeAlignmentFactor, pcs[0], pcs[1..]))
  }

  /** Setting program counters one after the other: the decoder ends at the last one. */
  method SetAll(codeAlignmentFactor: nat, start: nat, pcs: seq<nat>) returns (buffer: seq<Byte>)
    requires codeAlignmentFactor > 0 && Advances(codeAlignmentFactor, start, pcs)
    ensures Location(codeAlignmentFactor, buffer, start) == Parsed(if pcs == [] then start else pcs[|pcs| - 1], [])
  {
    hide Location;
    var cfi := new CallFrameBuilder(codeAlignmentFactor, start);
    for i := 0 to |pcs|
      invariant fresh(cfi) && cfi.Valid() && cfi.codeAlignmentFactor == codeAlignmentFactor && cfi.fdeInitialPC == start
      invariant cfi.currentPC == if i == 0 then start else pcs[i - 1]
      invariant Advances(codeAlignmentFactor, cfi.currentPC, pcs[i..])
    {
      assert pcs[i..][1..] == pcs[i + 1..];
      cfi.SetPC(pcs[i]);
    }
    buffer := cfi.buffer;
  }
}
