/** Interpreting the assembled bytes does what the instruction list does. */
module AssemblyCorrect {
  import opened Values
  import opened Instructions
  import opened ListMachine
  import opened Encoding
  import opened ByteMachine

  /** Operand j of item i can be encoded where it stands. */
  predicate EncodableOperand(items: seq<Item>, i: nat, j: nat)
    requires i < |items| && items[i].Instruction? && j < |items[i].operands|
  {
    var op, os := items[i].opcode, items[i].operands;
    if j < DestinationCount(op) then Representable(os[j])
    else if j + OffsetCount(op, |os|) < |os| then os[j].In? && os[j].index < INDEX_LIMIT
    else
      && os[j].To? && Position(items, os[j].target) < |items|
      && -32768 <= Delta(items, i, os[j].target) < 32768
  }

  /**
   What the encoding asks of a list: fixed arities, fewer than sixteen variable items, indices of fourteen signed
   bits, and displacements of sixteen.
   */
  predicate Encodable(items: seq<Item>, i: nat)
    requires i < |items|
  {
    items[i].Instruction? ==>
      && items[i].opcode != COUNT_EXTENSION && HasArity(items[i].opcode, |items[i].operands|, 0)
      && forall j :: 0 <= j < |items[i].operands| ==> EncodableOperand(items, i, j)
  }

  predicate Assemblable(items: seq<Item>) {
    forall i :: 0 <= i < |items| ==> Encodable(items, i)
  }

  /** An encodable list assembles. */
  lemma AssemblableSucceeds(items: seq<Item>)
    requires Assemblable(items)
    ensures Assemble(items) == Success(AssembleFirst(items, |items|))
  {
    forall i | 0 <= i < |items| ensures HasSources(items[i]) {
      assert Encodable(items, i);
      if items[i].Instruction? {
        forall j | DestinationCount(items[i].opcode) <= j < |items[i].operands| ensures !items[i].operands[j].Missing? {
          assert EncodableOperand(items, i, j);
        }
      }
    }
  }

  function Assembled(p: Program): ByteProgram {
    ByteProgram(AssembleFirst(p.items, |p.items|), p.arguments, p.captures, p.literals, p.runtime)
  }

  /** The interpreter at the instruction that the list machine is at. */
  function Addressed(items: seq<Item>, m: Machine): ByteMachine
    requires m.pc <= |items|
  {
    ByteMachine(PcOf(items, m.pc), 0, m.locals, m.heap, m.tape)
  }

  function AddressedStatus(items: seq<Item>, s: Status): ByteStatus
    requires s.Running? ==> s.machine.pc <= |items|
  {
    if s.Running? then Going(Addressed(items, s.machine)) else Stopped(s)
  }

  lemma SmallArity(op: Opcode, operandCount: nat)
    requires HasArity(op, operandCount, 0)
    ensures operandCount <= REGISTER_FILE_SIZE - 1
    ensures DestinationCount(op) + OffsetCount(op, operandCount) <= operandCount
    ensures OffsetsOf(op, if op.CASE_JUMP? then VariableItems(op, operandCount) else 0) == OffsetCount(op, operandCount)
    ensures DestinationCount(op) <= 1
  {
  }

  /** Decoded sources are the operands of the list. */
  lemma SourcesDecode(items: seq<Item>, i: nat)
    requires i < |items| && items[i].Instruction? && Encodable(items, i)
    requires var op, os := items[i].opcode, items[i].operands;
             DestinationCount(op) + OffsetCount(op, |os|) <= |os|
    ensures var op, os := items[i].opcode, items[i].operands;
            DecodeSources(Words(items, i, os)[DestinationCount(op)..|os| - OffsetCount(op, |os|)]) == Sources(op, os)
  {
    var op, os := items[i].opcode, items[i].operands;
    var from, to := DestinationCount(op), |os| - OffsetCount(op, |os|);
    var words := Words(items, i, os);
    forall j | 0 <= j < to - from ensures DecodeVector(words[from..to][j]) == Sources(op, os)[j] {
      assert DecodeVector(EncodeOperand(items, i, items[i].operands[from + j])) == items[i].operands[from + j]
             && (DestinationCount(items[i].opcode) <= (from + j) ==> items[i].operands[from + j].In?) by {
        assert EncodableOperand(items, i, from + j);
        VectorRoundTrip(items[i].operands[from + j]);
      }
      assert words[from..to][j] == words[from + j] == EncodeOperand(items, i, os[from + j]);
    }
  }

  lemma DestinationDecodes(items: seq<Item>, i: nat, localCount: nat)
    requires i < |items| && items[i].Instruction? && Encodable(items, i) && DestinationCount(items[i].opcode) == 1
    ensures var os := items[i].operands;
            |os| > 0 && DecodeVector(EncodeOperand(items, i, os[0])) == os[0]
            && (ValidDestination(EncodeOperand(items, i, os[0]), localCount) <==> Writable(os[0], localCount))
  {
    hide OffsetCount;
    SmallArity(items[i].opcode, |items[i].operands|);
    assert EncodableOperand(items, i, 0);
    VectorRoundTrip(items[i].operands[0]);
  }

  lemma PoolsRead(p: Program, os: seq<Operand>, locals: seq<Value>)
    ensures AllReadable(Pools(Assembled(p)), os, locals) <==> AllReadable(p, os, locals)
    ensures ReadAll(Pools(Assembled(p)), os, locals) == ReadAll(p, os, locals)
  {
    hide AssembleFirst;
    forall j | 0 <= j < |os|
      ensures Readable(Pools(Assembled(p)), os[j], locals) <==> Readable(p, os[j], locals)
      ensures Read(Pools(Assembled(p)), os[j], locals) == Read(p, os[j], locals)
    {
    }
  }

  /** A taken jump lands on the label. */
  lemma JumpLands(p: Program, i: nat, chosen: nat)
    requires i < |p.items| && p.items[i].Instruction? && Encodable(p.items, i)
    requires var op, os := p.items[i].opcode, p.items[i].operands;
             DestinationCount(op) + OffsetCount(op, |os|) <= |os|
    ensures var op, os := p.items[i].opcode, p.items[i].operands;
            var t := Target(p, op, os, chosen);
            var at := |os| - OffsetCount(op, |os|) + chosen;
            && (t.Some? <==> chosen < OffsetCount(op, |os|))
            && (t.Some? ==> t.value < |p.items|
                            && PcOf(p.items, i + 1) + EncodeOperand(p.items, i, os[at]) == PcOf(p.items, t.value))
  {
    hide PcOf, OffsetCount, Position;
    var op, os := p.items[i].opcode, p.items[i].operands;
    var at := |os| - OffsetCount(op, |os|) + chosen;
    if at < |os| { assert EncodableOperand(p.items, i, at); }
  }

  /** One iteration of the interpreter's loop executes exactly one instruction of the list. */
  lemma StepAssembled(p: Program, m: Machine)
    requires m.pc < |p.items| && p.items[m.pc].Instruction? && Encodable(p.items, m.pc)
    ensures Step(p, m).Running? ==> Step(p, m).machine.pc <= |p.items|
    ensures ByteStep(Assembled(p), Addressed(p.items, m)) == AddressedStatus(p.items, Step(p, m))
  {
    hide Execute, AssembleFirst, OpcodeByte, Code, OpcodeOf, DecodeAt, Words, EncodeOperand, PcOf;
    hide OffsetCount, OffsetsOf, VariableItems, Position, Target, Readable, Read, DecodeVector, Writable;
    var op, os := p.items[m.pc].opcode, p.items[m.pc].operands;
    assert p.items[m.pc].opcode != COUNT_EXTENSION && HasArity(p.items[m.pc].opcode, |p.items[m.pc].operands|, 0);
    SmallArity(op, |os|);
    DecodesItem(p.items, m.pc, 0, REGISTER_FILE_SIZE);
    OpcodeRoundTrip(op);
    var d := DecodeAt(Assembled(p).bytes, PcOf(p.items, m.pc), 0, REGISTER_FILE_SIZE).value;
    assert ByteStep(Assembled(p), Addressed(p.items, m)) == ExecuteDecoded(Assembled(p), Addressed(p.items, m), op, d);
    assert (Step(p, m).Running? ==> Step(p, m).machine.pc <= |p.items|)
           && ExecuteDecoded(Assembled(p), Addressed(p.items, m), p.items[m.pc].opcode, d)
              == AddressedStatus(p.items, Step(p, m)) by {
      hide Execute, AssembleFirst, Encodable, HasArity, Code, EncodeOperand;
      hide PcOf, DestinationCount, Sources, Commit, Advance;
      hide OffsetCount, OffsetsOf, VariableItems, Position, Target, Readable;
      hide Read, DecodeVector, Writable, ValidDestination, Write;
      var op, os := p.items[m.pc].opcode, p.items[m.pc].operands;
      SmallArity(op, |os|);
      SourcesDecode(p.items, m.pc);
      if DestinationCount(op) == 1 { DestinationDecodes(p.items, m.pc, |m.locals|); }
      PoolsRead(p, Sources(op, os), m.locals);
      if WellShaped(op, os, |m.locals|) && AllReadable(p, Sources(op, os), m.locals) {
        CommitsAlike(p, m, d, Execute(p.runtime, op, ReadAll(p, Sources(op, os), m.locals), m.heap, m.tape));
      }
    }
  }

  /** What an effect does to the list machine, it does to the interpreter. */
  lemma CommitsAlike(p: Program, m: Machine, d: Decoded, effect: Effect)
    requires m.pc < |p.items| && p.items[m.pc].Instruction? && Encodable(p.items, m.pc)
    requires var op, os := p.items[m.pc].opcode, p.items[m.pc].operands;
             && op != COUNT_EXTENSION && HasArity(op, |os|, 0) && WellShaped(op, os, |m.locals|)
             && |d.words| == |os| && d.words == Words(p.items, m.pc, os) && d.next == PcOf(p.items, m.pc + 1)
             && (DestinationCount(op) == 1 ==>
                   ValidDestination(d.words[0], |m.locals|) && DecodeVector(d.words[0]) == os[0])
    ensures var op, os := p.items[m.pc].opcode, p.items[m.pc].operands;
            var s := Advance(p, m, op, os, effect);
            && (s.Running? ==> s.machine.pc <= |p.items|)
            && Commit(Addressed(p.items, m), d, DestinationCount(op), OffsetCount(op, |os|), effect)
               == AddressedStatus(p.items, s)
  {
    hide Encodable, HasArity, EncodeOperand, PcOf, DestinationCount, OffsetCount;
    hide Position, Target, DecodeVector, Writable, Write;
    if effect.Goto? { JumpLands(p, m.pc, effect.target); }
  }

  // Whole runs.

  /** Labels are no bytes: the interpreter stands already behind them. */
  lemma LabelStays(p: Program, m: Machine)
    requires m.pc < |p.items| && p.items[m.pc].Label?
    ensures Step(p, m) == Running(m.(pc := m.pc + 1))
    ensures Addressed(p.items, m.(pc := m.pc + 1)) == Addressed(p.items, m)
  {
  }

  lemma EndFails(p: Program, m: Machine)
    requires m.pc == |p.items|
    ensures Step(p, m) == Failed
    ensures ByteStep(Assembled(p), Addressed(p.items, m)) == Stopped(Failed)
  {
  }

  // Count extensions: the list machine passes them, the interpreter stays at them.

  predicate IsExtension(items: seq<Item>, i: nat) {
    i < |items| && items[i].Instruction? && items[i].opcode.COUNT_EXTENSION?
  }

  /** Count extensions stand right in front of the instructions that they extend; everything else is encodable. */
  predicate Executable(items: seq<Item>) {
    forall i :: 0 <= i < |items| ==> ExecutableItem(items, i)
  }

  predicate ExecutableItem(items: seq<Item>, i: nat)
    requires i < |items|
  {
    if IsExtension(items, i) then |items[i].operands| == 1 && i + 1 < |items| && items[i + 1].Instruction?
    else !Clear(items, i) || Encodable(items, i)
  }

  /** No count extension right in front. */
  predicate Clear(items: seq<Item>, i: nat) {
    i == 0 || !IsExtension(items, i - 1)
  }

  lemma ExecutableAt(items: seq<Item>, i: nat)
    requires Executable(items) && i < |items| && items[i].Instruction?
    ensures IsExtension(items, i) ==> |items[i].operands| == 1
    ensures !IsExtension(items, i) && Clear(items, i) ==> Encodable(items, i)
  {
    assert ExecutableItem(items, i);
  }

  lemma ClearStep(p: Program, m: Machine)
    requires Executable(p.items) && m.pc < |p.items| && Clear(p.items, m.pc) && !IsExtension(p.items, m.pc)
             && Step(p, m).Running?
    ensures Clear(p.items, Step(p, m).machine.pc)
  {
    hide Step, Encodable;
    var l := StepGoes(p, m);
    var pc := Step(p, m).machine.pc;
    assert pc > 0 ==> ExecutableItem(p.items, pc - 1);
  }

  /** No state of the first n steps is at a count extension. */
  ghost predicate RunsPlain(p: Program, m: Machine, n: nat) {
    forall k: nat :: k < n && Iterate(p, m, k).Running? ==> !IsExtension(p.items, Iterate(p, m, k).machine.pc)
  }

  /** The list machine halts with r without executing a count extension. */
  ghost predicate LeadsPlainly(p: Program, m: Machine, r: Status) {
    exists n: nat :: Iterate(p, m, n) == r && RunsPlain(p, m, n)
  }

  lemma PlainAfter(p: Program, m: Machine, n: nat)
    requires n > 0 && RunsPlain(p, m, n)
    ensures !IsExtension(p.items, m.pc)
    ensures Step(p, m).Running? ==> RunsPlain(p, Step(p, m).machine, n - 1)
  {
    hide Step, IsExtension;
    assert Iterate(p, m, 0) == Running(m);
    if Step(p, m).Running? {
      forall k: nat | k < n - 1 ensures Iterate(p, Step(p, m).machine, k) == Iterate(p, m, k + 1) {}
    }
  }

  lemma PlainStepThen(p: Program, m: Machine, r: Status)
    requires !IsExtension(p.items, m.pc) && Step(p, m).Running? && LeadsPlainly(p, Step(p, m).machine, r)
    ensures LeadsPlainly(p, m, r)
  {
    hide Step, IsExtension;
    var next := Step(p, m).machine;
    var n: nat :| Iterate(p, next, n) == r && RunsPlain(p, next, n);
    forall k: nat | k < n + 1 && Iterate(p, m, k).Running? ensures !IsExtension(p.items, Iterate(p, m, k).machine.pc) {
      if k > 0 { assert Iterate(p, m, k) == Iterate(p, next, k - 1); }
    }
    assert Iterate(p, m, n + 1) == r && RunsPlain(p, m, n + 1);
  }

  lemma {:induction false} BytesFollow(p: Program, m: Machine, n: nat)
    requires Executable(p.items) && m.pc <= |p.items| && Clear(p.items, m.pc)
    requires !Iterate(p, m, n).Running? && RunsPlain(p, m, n)
    ensures ByteLeads(Assembled(p), Addressed(p.items, m), Iterate(p, m, n))
    decreases n
  {
    hide Step, Assembled, Addressed, Encodable, IsExtension, Clear, RunsPlain;
    var q, b := Assembled(p), Addressed(p.items, m);
    PlainAfter(p, m, n);
    if m.pc == |p.items| {
      EndFails(p, m);
      assert ByteLeads(q, b, ByteStep(q, b).status) by {
        hide ByteStep;
        assert ByteIterate(q, b, 1) == ByteStep(q, b);
      }
    } else if p.items[m.pc].Label? {
      LabelStays(p, m);
      ClearStep(p, m);
      BytesFollow(p, m.(pc := m.pc + 1), n - 1);
    } else {
      ExecutableAt(p.items, m.pc);
      StepAssembled(p, m);
      if Step(p, m).Running? {
        ClearStep(p, m);
        BytesFollow(p, Step(p, m).machine, n - 1);
        assert ByteLeads(q, b, Iterate(p, m, n)) by {
          var l: nat :| ByteIterate(q, ByteStep(q, b).machine, l) == Stopped(Iterate(p, m, n));
          assert ByteIterate(q, b, l + 1) == Stopped(Iterate(p, m, n));
        }
      } else {
        assert ByteLeads(q, b, ByteStep(q, b).status) by {
          hide ByteStep;
          assert ByteIterate(q, b, 1) == ByteStep(q, b);
        }
      }
    }
  }

  /** At a count extension the interpreter never stops. */
  lemma ExtensionStays(p: Program, m: Machine, n: nat)
    requires Executable(p.items) && IsExtension(p.items, m.pc)
    ensures ByteIterate(Assembled(p), Addressed(p.items, m), n).Going?
  {
    hide AssembleFirst, Encodable, PcOf, ByteStep;
    ExecutableAt(p.items, m.pc);
    ItemBytes(p.items, m.pc);
    ExtensionLoops(Assembled(p), Addressed(p.items, m), n);
  }

  lemma {:induction false} BytesPrecede(p: Program, m: Machine, n: nat)
    requires Executable(p.items) && m.pc <= |p.items| && Clear(p.items, m.pc)
    requires ByteIterate(Assembled(p), Addressed(p.items, m), n).Stopped?
    ensures LeadsPlainly(p, m, ByteIterate(Assembled(p), Addressed(p.items, m), n).status)
    decreases n, |p.items| - m.pc
  {
    hide ByteStep, Assembled, Addressed, Encodable, Clear;
    var q, b := Assembled(p), Addressed(p.items, m);
    var r := ByteIterate(q, b, n).status;
    if IsExtension(p.items, m.pc) {
      ExtensionStays(p, m, n);
      assert false;
    } else if m.pc == |p.items| {
      EndFails(p, m);
      assert LeadsPlainly(p, m, Step(p, m)) by {
        assert Iterate(p, m, 1) == Step(p, m) && RunsPlain(p, m, 1);
      }
    } else if p.items[m.pc].Label? {
      LabelStays(p, m);
      ClearStep(p, m);
      BytesPrecede(p, m.(pc := m.pc + 1), n);
      PlainStepThen(p, m, r);
    } else {
      ExecutableAt(p.items, m.pc);
      StepAssembled(p, m);
      if Step(p, m).Running? {
        ClearStep(p, m);
        BytesPrecede(p, Step(p, m).machine, n - 1);
        PlainStepThen(p, m, r);
      } else {
        assert LeadsPlainly(p, m, Step(p, m)) by {
          hide Step, IsExtension;
          assert Iterate(p, m, 1) == Step(p, m) && RunsPlain(p, m, 1);
        }
      }
    }
  }

  /**
   Exactly what the interpreter makes of count extensions: on the assembled bytes it halts as the list machine does,
   provided that the list machine does not execute a count extension on the way, and otherwise it does not halt.
   */
  lemma ExtensionsDecide(p: Program, m: Machine)
    requires Executable(p.items) && m.pc <= |p.items| && Clear(p.items, m.pc)
    ensures forall r: Status :: !r.Running? ==>
              (ByteLeads(Assembled(p), Addressed(p.items, m), r) <==> LeadsPlainly(p, m, r))
  {
    hide Step, ByteStep, Assembled, Addressed, Executable, Clear, Iterate, ByteIterate, RunsPlain;
    var q, b := Assembled(p), Addressed(p.items, m);
    forall r: Status | !r.Running? && LeadsPlainly(p, m, r) ensures ByteLeads(q, b, r) {
      var n: nat :| Iterate(p, m, n) == r && RunsPlain(p, m, n);
      BytesFollow(p, m, n);
    }
    forall r: Status | !r.Running? && ByteLeads(q, b, r) ensures LeadsPlainly(p, m, r) {
      var n: nat :| ByteIterate(q, b, n) == Stopped(r);
      BytesPrecede(p, m, n);
    }
  }

  ghost predicate ByteAlike(p: Program, m: Machine, q: ByteProgram, b: ByteMachine) {
    forall r: Status :: !r.Running? ==> (Leads(p, m, r) <==> ByteLeads(q, b, r))
  }

  /** The interpreter on the assembled bytes and the list machine halt alike, in both directions. */
  lemma AssembledAlike(p: Program, m: Machine)
    requires Assemblable(p.items) && m.pc <= |p.items|
    ensures ByteAlike(p, m, Assembled(p), Addressed(p.items, m))
  {
    hide Step, ByteStep, Assembled, Addressed, Iterate, ByteIterate;
    assert Executable(p.items) && forall i: nat :: !IsExtension(p.items, i) by {
      forall i: nat ensures !IsExtension(p.items, i) {
        if i < |p.items| { assert Encodable(p.items, i); }
      }
    }
    assert Clear(p.items, m.pc);
    ExtensionsDecide(p, m);
    forall r: Status | Leads(p, m, r) ensures LeadsPlainly(p, m, r) {
      var n: nat :| Iterate(p, m, n) == r;
      assert RunsPlain(p, m, n);
    }
  }
}
