/** The direct compiler as it runs: methods that append to the assembler's instruction list. */
module DirectCompiler {
  import opened Values
  import opened Instructions
  import opened SyntaxTree
  import opened Compiler
  import opened Assembler

  /** What a compile method returns and leaves behind is what the specification says. */
  ghost predicate Agrees(spec: Compiled, r: Attempt<Operand>, s: Assembly) {
    match spec
    case Success(pair) => r == Success(pair.1) && s == pair.0
    case Failure(message) => r == Failure(message)
  }

  ghost predicate AgreesAll(spec: Attempt<(Assembly, seq<Operand>)>, r: Attempt<seq<Operand>>, s: Assembly) {
    match spec
    case Success(pair) => r == Success(pair.1) && s == pair.0
    case Failure(message) => r == Failure(message)
  }

  ghost predicate AgreesState(spec: Attempt<Assembly>, r: Attempt<()>, s: Assembly) {
    match spec
    case Success(state) => r == Success(()) && s == state
    case Failure(message) => r == Failure(message)
  }

  class FunctionDirectCompiler {
    const list: FunctionAssembler
    var literals: seq<Value>
    var temporaryCount: nat
    var labelCount: nat
    var bindings: map<Binding, Operand>
    const argumentCount: nat
    const captureCount: nat
    var breakLabel: Option<nat>
    var continueLabel: Option<nat>

    ghost predicate Valid()
      reads this, list, list.nodes
    {
      list.Valid()
    }

    ghost function State(): Assembly
      reads this, list, list.nodes
    {
      Assembly(list.Items(), literals, temporaryCount, labelCount, bindings, argumentCount, captureCount)
    }

    constructor (argumentCount: nat, captureCount: nat)
      ensures Valid() && fresh(list) && fresh(list.owned)
      ensures State() == Assembly([], [], 0, 0, map[], argumentCount, captureCount)
      ensures breakLabel == continueLabel == None && list.references == map[]
    {
      list := new FunctionAssembler();
      literals, temporaryCount, labelCount, bindings := [], 0, 0, map[];
      this.argumentCount, this.captureCount := argumentCount, captureCount;
      breakLabel, continueLabel := None, None;
    }

    method EmitItem(item: Item)
      requires Valid()
      modifies list`firstInstruction, list`lastInstruction, list`nodes, list`owned, list.owned
      ensures Valid() && fresh(list.owned - old(list.owned))
      ensures State() == Emit(old(State()), item)
    {
      list.AddInstruction(item);
    }

    method Literal(v: Value) returns (o: Operand)
      requires Valid()
      modifies this`literals
      ensures Valid() && (State(), o) == AddLiteral(old(State()), v)
    {
      var i := IndexOf(literals, v);
      if i == |literals| { literals := literals + [v]; }
      o := In(Literals, i);
    }

    method Temporary(kind: TypeKind) returns (o: Operand)
      requires Valid()
      modifies this`literals, this`temporaryCount
      ensures Valid() && (State(), o) == NewTemporary(old(State()), kind)
    {
      match Constant(kind)
      case Some(v) =>
        o := Literal(v);
      case None =>
        o := In(Locals, temporaryCount);
        temporaryCount := temporaryCount + 1;
    }

    method CreateLabels(count: nat) returns (first: nat)
      requires Valid()
      modifies this`labelCount
      ensures Valid() && first == old(State()).labels && State() == old(State()).(labels := old(State()).labels + count)
    {
      first := labelCount;
      labelCount := labelCount + count;
    }

    method Move(destination: Operand, o: Operand)
      requires Valid()
      modifies list`firstInstruction, list`lastInstruction, list`nodes, list`owned, list.owned
      ensures Valid() && fresh(list.owned - old(list.owned))
      ensures State() == EmitMove(old(State()), destination, o)
    {
      if destination.In? && destination.vector.Locals? { EmitItem(Instruction(MOVE, [destination, o])); }
    }

    method DebugValue(isNamed: bool, o: Operand, symbol: Value)
      requires Valid()
      modifies this`literals, list`firstInstruction, list`lastInstruction, list`nodes, list`owned, list.owned
      ensures Valid() && fresh(list.owned - old(list.owned))
      ensures State() == EmitDebugValue(old(State()), isNamed, o, symbol)
    {
      hide Valid;
      if isNamed {
        var l := Literal(symbol);
        EmitItem(Instruction(SET_DEBUG_VALUE, [o, l]));
      }
    }

    method JumpAndLabel(target: nat, l: nat)
      requires Valid()
      modifies list`firstInstruction, list`lastInstruction, list`nodes, list`owned, list.owned
      ensures Valid() && fresh(list.owned - old(list.owned))
      ensures State() == EmitJumpAndLabel(old(State()), target, l)
    {
      hide Valid;
      EmitItem(Instruction(JUMP, [To(target)]));
      EmitItem(Label(l));
    }

    method CountExtension(op: Opcode, operandCount: nat)
      requires Valid()
      modifies list`firstInstruction, list`lastInstruction, list`nodes, list`owned, list.owned
      ensures Valid() && fresh(list.owned - old(list.owned))
      ensures State() == EmitCountExtension(old(State()), op, operandCount)
    {
      match ImplicitCount(op)
      case Some(k) =>
        if operandCount >= k && (operandCount - k) / 16 > 0 {
          EmitItem(Instruction(COUNT_EXTENSION, [Count((operandCount - k) / 16)]));
        }
      case None =>
    }

    method Operation(op: Opcode, os: seq<Operand>, kind: TypeKind) returns (r: Operand)
      requires Valid()
      modifies this`literals, this`temporaryCount, list`firstInstruction, list`lastInstruction, list`nodes,
               list`owned, list.owned
      ensures Valid() && fresh(list.owned - old(list.owned))
      ensures (State(), r) == EmitOperation(old(State()), op, os, kind)
    {
      hide Valid, State, EmitOperation;
      if DestinationCount(op) == 0 {
        r := EffectOperation(op, os, kind);
      } else {
        r := ResultOperation(op, os, kind);
      }
    }

    method EffectOperation(op: Opcode, os: seq<Operand>, kind: TypeKind) returns (r: Operand)
      requires Valid() && DestinationCount(op) == 0
      modifies this`literals, list`firstInstruction, list`lastInstruction, list`nodes, list`owned, list.owned
      ensures Valid() && fresh(list.owned - old(list.owned))
      ensures (State(), r) == EmitOperation(old(State()), op, os, kind)
    {
      hide Valid, State, AddLiteral, EmitCountExtension, Arrange, DestinationCount;
      CountExtension(op, |os|);
      EmitItem(Instruction(op, Arrange(op, os)));
      if op.STORE? && |os| > 0 {
        r := os[0];
      } else {
        r := Literal(Void);
      }
    }

    method ResultOperation(op: Opcode, os: seq<Operand>, kind: TypeKind) returns (r: Operand)
      requires Valid() && DestinationCount(op) != 0
      modifies this`literals, this`temporaryCount, list`firstInstruction, list`lastInstruction, list`nodes,
               list`owned, list.owned
      ensures Valid() && fresh(list.owned - old(list.owned))
      ensures (State(), r) == EmitOperation(old(State()), op, os, kind)
    {
      hide Valid, State, NewTemporary, EmitCountExtension, Arrange, DestinationCount, IsCall, AddLiteral, Emit;
      r := Temporary(kind);
      var d := if IsCall(op) && kind.VoidKind? then Missing else r;
      CountExtension(op, |os| + 1);
      EmitItem(Instruction(op, [d] + Arrange(op, os)));
      if IsCall(op) && kind.EscapeKind? { EmitItem(Instruction(UNREACHABLE, [])); }
    }

    method Alloca(pointerType: Value, o: Operand) returns (d: Operand)
      requires Valid()
      modifies this`literals, this`temporaryCount, list`firstInstruction, list`lastInstruction, list`nodes,
               list`owned, list.owned
      ensures Valid() && fresh(list.owned - old(list.owned))
      ensures (State(), d) == EmitAlloca(old(State()), pointerType, o)
    {
      hide Valid, State, NewTemporary, AddLiteral;
      d := Temporary(ValueKind);
      var t := Literal(pointerType);
      EmitItem(Instruction(ALLOCA_WITH_VALUE, [d, t, o]));
    }

    // Nodes.

    /** Compiles a node of the syntax tree; the result is the operand that holds its value. */
    method CompileNode(n: Node) returns (r: Attempt<Operand>)
      requires Valid()
      modifies this, list`firstInstruction, list`lastInstruction, list`nodes, list`owned, list.owned
      ensures Valid() && fresh(list.owned - old(list.owned))
      ensures r.Success? ==> breakLabel == old(breakLabel) && continueLabel == old(continueLabel)
      ensures Agrees(Compile(n, old(State()), old(breakLabel), old(continueLabel)), r, State())
      decreases n, 1
    {
      hide Valid, State, Agrees, Compile;
      match n
      case Literal(_) => r := CompileLeaf(n);
      case Reference(_) => r := CompileLeaf(n);
      case Break => r := CompileLeaf(n);
      case Continue => r := CompileLeaf(n);
      case Sequence(_) => r := CompileSequence(n);
      case Variable(_, _, _, _, _, _) => r := CompileVariable(n);
      case Operation(_, _, _) => r := CompileOperation(n);
      case If(_, _, _, _) => r := CompileIf(n);
      case Switch(_, _, _, _, _) => r := CompileSwitch(n);
      case While(_, _, _) => r := CompileWhile(n);
      case DoWhile(_, _, _) => r := CompileDoWhile(n);
      case Return(_) => r := CompileReturn(n);
    }

    method CompileLeaf(n: Node) returns (r: Attempt<Operand>)
      requires Valid() && (n.Literal? || n.Reference? || n.Break? || n.Continue?)
      modifies this`literals, list`firstInstruction, list`lastInstruction, list`nodes, list`owned, list.owned
      ensures Valid() && fresh(list.owned - old(list.owned))
      ensures Agrees(Compile(n, old(State()), old(breakLabel), old(continueLabel)), r, State())
    {
      hide AddLiteral;
      if n.Literal? {
        var o := Literal(n.value);
        r := Success(o);
      } else if n.Reference? {
        r := if n.binding in bindings then Success(bindings[n.binding]) else Failure("Invalid value binding.");
      } else {
        var exit := if n.Break? then breakLabel else continueLabel;
        if exit.None? {
          r := Failure(if n.Break? then "Break statement in wrong location."
                       else "Continue statement in wrong location.");
        } else {
          EmitItem(Instruction(JUMP, [To(exit.value)]));
          var o := Literal(Void);
          r := Success(o);
        }
      }
    }

    method CompileSequence(n: Node) returns (r: Attempt<Operand>)
      requires Valid() && n.Sequence?
      modifies this, list`firstInstruction, list`lastInstruction, list`nodes, list`owned, list.owned
      ensures Valid() && fresh(list.owned - old(list.owned))
      ensures r.Success? ==> breakLabel == old(breakLabel) && continueLabel == old(continueLabel)
      ensures Agrees(Compile(n, old(State()), old(breakLabel), old(continueLabel)), r, State())
      decreases n, 0
    {
      hide Valid, State, AddLiteral, CompileAll;
      var os :- CompileNodes(n.expressions);
      if |os| == 0 {
        var o := Literal(Void);
        r := Success(o);
      } else {
        r := Success(os[|os| - 1]);
      }
    }

    /** Compiles nodes one after the other. */
    method CompileNodes(ns: seq<Node>) returns (r: Attempt<seq<Operand>>)
      requires Valid()
      modifies this, list`firstInstruction, list`lastInstruction, list`nodes, list`owned, list.owned
      ensures Valid() && fresh(list.owned - old(list.owned))
      ensures r.Success? ==> breakLabel == old(breakLabel) && continueLabel == old(continueLabel)
      ensures AgreesAll(CompileAll(ns, old(State()), old(breakLabel), old(continueLabel)), r, State())
      decreases ns, 0
    {
      hide Valid, State;
      ghost var spec := CompileAll(ns, State(), breakLabel, continueLabel);
      var os := [];
      var i := 0;
      assert CompileAll(ns, State(), breakLabel, continueLabel)
             == AllFrom(ns[0..], State(), breakLabel, continueLabel, []) by {
        assert ns[0..] == ns;
        match CompileAll(ns, State(), breakLabel, continueLabel)
        case Success(pair) => assert [] + pair.1 == pair.1;
        case Failure(_) =>
      }
      while i < |ns|
        invariant i <= |ns| && Valid() && fresh(list.owned - old(list.owned))
        invariant breakLabel == old(breakLabel) && continueLabel == old(continueLabel)
        invariant spec == AllFrom(ns[i..], State(), breakLabel, continueLabel, os)
      {
        assert AllFrom(ns[i..], State(), breakLabel, continueLabel, os) ==
               match Compile(ns[i], State(), breakLabel, continueLabel)
               case Success(pair) => AllFrom(ns[i + 1..], pair.0, breakLabel, continueLabel, os + [pair.1])
               case Failure(message) => Failure(message) by {
          assert ns[i..][0] == ns[i] && ns[i..][1..] == ns[i + 1..];
          if Compile(ns[i], State(), breakLabel, continueLabel).Success? {
            var (s1, o) := Compile(ns[i], State(), breakLabel, continueLabel).value;
            if CompileAll(ns[i + 1..], s1, breakLabel, continueLabel).Success? {
              var rest := CompileAll(ns[i + 1..], s1, breakLabel, continueLabel).value.1;
              assert os + ([o] + rest) == os + [o] + rest;
            }
          }
        }
        var o :- CompileNode(ns[i]);
        os := os + [o];
        i := i + 1;
      }
      assert ns[i..] == [];
      AllFromEnd(State(), breakLabel, continueLabel, os);
      r := Success(os);
    }

    method CompileVariable(n: Node) returns (r: Attempt<Operand>)
      requires Valid() && n.Variable?
      modifies this, list`firstInstruction, list`lastInstruction, list`nodes, list`owned, list.owned
      ensures Valid() && fresh(list.owned - old(list.owned))
      ensures r.Success? ==> breakLabel == old(breakLabel) && continueLabel == old(continueLabel)
      ensures Agrees(Compile(n, old(State()), old(breakLabel), old(continueLabel)), r, State())
      decreases n, 0
    {
      hide Valid, State, AddLiteral, CompileOrNull, EmitAlloca, EmitDebugValue;
      var o :- CompileNodeOrNull(n.initial);
      var v := o;
      if n.isMutable { v := Alloca(n.pointerType, o); }
      DebugValue(n.isNamed, v, n.symbol);
      SetBinding(n.name, v);
      r := Success(v);
    }

    method SetBinding(name: Binding, o: Operand)
      requires Valid()
      modifies this`bindings
      ensures Valid() && State() == old(State()).(bindings := old(State()).bindings[name := o])
    {
      bindings := bindings[name := o];
    }

    method CompileOperation(n: Node) returns (r: Attempt<Operand>)
      requires Valid() && n.Operation?
      modifies this, list`firstInstruction, list`lastInstruction, list`nodes, list`owned, list.owned
      ensures Valid() && fresh(list.owned - old(list.owned))
      ensures r.Success? ==> breakLabel == old(breakLabel) && continueLabel == old(continueLabel)
      ensures Agrees(Compile(n, old(State()), old(breakLabel), old(continueLabel)), r, State())
      decreases n, 0
    {
      hide Valid, State, CompileAll, EmitOperation;
      var os :- CompileNodes(n.parts);
      var o := Operation(n.opcode, os, n.kind);
      r := Success(o);
    }

    method CompileReturn(n: Node) returns (r: Attempt<Operand>)
      requires Valid() && n.Return?
      modifies this, list`firstInstruction, list`lastInstruction, list`nodes, list`owned, list.owned
      ensures Valid() && fresh(list.owned - old(list.owned))
      ensures r.Success? ==> breakLabel == old(breakLabel) && continueLabel == old(continueLabel)
      ensures Agrees(Compile(n, old(State()), old(breakLabel), old(continueLabel)), r, State())
      decreases n, 0
    {
      hide Valid, State;
      var o :- CompileNode(n.expression);
      EmitItem(Instruction(RETURN, [o]));
      r := Success(o);
    }

    /** A missing expression is the null literal. */
    method CompileNodeOrNull(n: Option<Node>) returns (r: Attempt<Operand>)
      requires Valid()
      modifies this, list`firstInstruction, list`lastInstruction, list`nodes, list`owned, list.owned
      ensures Valid() && fresh(list.owned - old(list.owned))
      ensures r.Success? ==> breakLabel == old(breakLabel) && continueLabel == old(continueLabel)
      ensures Agrees(CompileOrNull(n, old(State()), old(breakLabel), old(continueLabel)), r, State())
      decreases n, 2
    {
      hide Valid, State, Compile, AddLiteral;
      if n.Some? {
        r := CompileNode(n.value);
      } else {
        var o := Literal(Null);
        r := Success(o);
      }
    }

    /** Compiles a loop body with the loop's own labels, and restores the labels of the enclosing loop. */
    method CompileWithBreakAndContinue(n: Option<Node>, newBreak: nat, newContinue: nat) returns (r: Attempt<()>)
      requires Valid()
      modifies this, list`firstInstruction, list`lastInstruction, list`nodes, list`owned, list.owned
      ensures Valid() && fresh(list.owned - old(list.owned))
      ensures r.Success? ==> breakLabel == old(breakLabel) && continueLabel == old(continueLabel)
      ensures AgreesState(CompileIfPresent(n, old(State()), Some(newBreak), Some(newContinue)), r, State())
      decreases n, 3
    {
      hide Valid, CompileIfPresent, Compile, AgreesState;
      var oldBreak, oldContinue := breakLabel, continueLabel;
      SetLabels(Some(newBreak), Some(newContinue));
      var _ :- CompileNodeIfPresent(n);
      SetLabels(oldBreak, oldContinue);
      r := Success(());
    }

    method SetLabels(newBreak: Option<nat>, newContinue: Option<nat>)
      requires Valid()
      modifies this`breakLabel, this`continueLabel
      ensures Valid() && State() == old(State()) && breakLabel == newBreak && continueLabel == newContinue
    {
      breakLabel, continueLabel := newBreak, newContinue;
    }

    method CompileNodeIfPresent(n: Option<Node>) returns (r: Attempt<()>)
      requires Valid()
      modifies this, list`firstInstruction, list`lastInstruction, list`nodes, list`owned, list.owned
      ensures Valid() && fresh(list.owned - old(list.owned))
      ensures r.Success? ==> breakLabel == old(breakLabel) && continueLabel == old(continueLabel)
      ensures AgreesState(CompileIfPresent(n, old(State()), old(breakLabel), old(continueLabel)), r, State())
      decreases n, 2
    {
      hide Valid, State, Compile;
      if n.Some? {
        var _ :- CompileNode(n.value);
      }
      r := Success(());
    }

    /** The condition of a loop: leaves the loop when it is not true. */
    method CompileLoopGuard(n: Option<Node>, exit: nat, next: nat) returns (r: Attempt<()>)
      requires Valid()
      modifies this, list`firstInstruction, list`lastInstruction, list`nodes, list`owned, list.owned
      ensures Valid() && fresh(list.owned - old(list.owned))
      ensures r.Success? ==> breakLabel == old(breakLabel) && continueLabel == old(continueLabel)
      ensures AgreesState(CompileGuard(n, old(State()), exit, next, old(breakLabel), old(continueLabel)), r, State())
      decreases n, 2
    {
      hide Valid, State, Compile;
      if n.Some? {
        var o :- CompileNode(n.value);
        EmitItem(Instruction(JUMP_IF_FALSE, [o, To(exit)]));
      } else {
        EmitItem(Instruction(JUMP, [To(next)]));
      }
      r := Success(());
    }

    /** The continue expression, the jump back and the merge point of a loop. */
    method CompileEndOfLoop(n: Option<Node>, entry: nat, merge: nat) returns (r: Attempt<Operand>)
      requires Valid()
      modifies this, list`firstInstruction, list`lastInstruction, list`nodes, list`owned, list.owned
      ensures Valid() && fresh(list.owned - old(list.owned))
      ensures r.Success? ==> breakLabel == old(breakLabel) && continueLabel == old(continueLabel)
      ensures Agrees(CompileLoopEnd(n, old(State()), entry, merge, old(breakLabel), old(continueLabel)), r, State())
      decreases n, 3
    {
      hide Valid, State, CompileIfPresent, EmitJumpAndLabel, AddLiteral;
      var _ :- CompileNodeIfPresent(n);
      JumpAndLabel(entry, merge);
      var o := Literal(Void);
      r := Success(o);
    }

    method CompileIf(n: Node) returns (r: Attempt<Operand>)
      requires Valid() && n.If?
      modifies this, list`firstInstruction, list`lastInstruction, list`nodes, list`owned, list.owned
      ensures Valid() && fresh(list.owned - old(list.owned))
      ensures r.Success? ==> breakLabel == old(breakLabel) && continueLabel == old(continueLabel)
      ensures Agrees(Compile(n, old(State()), old(breakLabel), old(continueLabel)), r, State())
      decreases n, 0
    {
      hide Valid, State, CompileOrNull, NewTemporary, EmitMove, EmitJumpAndLabel;
      var otherwise := CreateLabels(2);
      var merge := otherwise + 1;
      var o :- CompileNode(n.condition);
      EmitItem(Instruction(JUMP_IF_FALSE, [o, To(otherwise)]));
      var result := Temporary(n.kind);
      var _ :- CompileBranch(n.whenTrue, result);
      JumpAndLabel(merge, otherwise);
      var _ :- CompileBranch(n.whenFalse, result);
      EmitItem(Label(merge));
      r := Success(result);
    }

    /** A branch of a conditional, and the move of its value. */
    method CompileBranch(n: Option<Node>, result: Operand) returns (r: Attempt<()>)
      requires Valid()
      modifies this, list`firstInstruction, list`lastInstruction, list`nodes, list`owned, list.owned
      ensures Valid() && fresh(list.owned - old(list.owned))
      ensures r.Success? ==> breakLabel == old(breakLabel) && continueLabel == old(continueLabel)
      ensures AgreesState(BranchCode(n, old(State()), result, old(breakLabel), old(continueLabel)), r, State())
      decreases n, 3
    {
      hide Valid, State, CompileOrNull, EmitMove;
      var o :- CompileNodeOrNull(n);
      Move(result, o);
      r := Success(());
    }

    method CompileWhile(n: Node) returns (r: Attempt<Operand>)
      requires Valid() && n.While?
      modifies this, list`firstInstruction, list`lastInstruction, list`nodes, list`owned, list.owned
      ensures Valid() && fresh(list.owned - old(list.owned))
      ensures r.Success? ==> breakLabel == old(breakLabel) && continueLabel == old(continueLabel)
      ensures Agrees(Compile(n, old(State()), old(breakLabel), old(continueLabel)), r, State())
      decreases n, 0
    {
      hide Valid, State, CompileGuard, CompileIfPresent, EmitJumpAndLabel, CompileLoopEnd;
      var entry := CreateLabels(4);
      EmitItem(Label(entry));
      var _ :- CompileLoopGuard(n.guard, entry + 3, entry + 1);
      EmitItem(Label(entry + 1));
      var _ :- CompileWithBreakAndContinue(n.body, entry + 3, entry + 2);
      JumpAndLabel(entry + 2, entry + 2);
      r := CompileEndOfLoop(n.step, entry, entry + 3);
    }

    method CompileDoWhile(n: Node) returns (r: Attempt<Operand>)
      requires Valid() && n.DoWhile?
      modifies this, list`firstInstruction, list`lastInstruction, list`nodes, list`owned, list.owned
      ensures Valid() && fresh(list.owned - old(list.owned))
      ensures r.Success? ==> breakLabel == old(breakLabel) && continueLabel == old(continueLabel)
      ensures Agrees(Compile(n, old(State()), old(breakLabel), old(continueLabel)), r, State())
      decreases n, 0
    {
      hide Valid, State, CompileGuard, CompileIfPresent, EmitJumpAndLabel, CompileLoopEnd;
      var entry := CreateLabels(4);
      EmitItem(Label(entry));
      var _ :- CompileWithBreakAndContinue(n.body, entry + 3, entry + 1);
      JumpAndLabel(entry + 1, entry + 1);
      var _ :- CompileLoopGuard(n.guard, entry + 3, entry + 2);
      EmitItem(Label(entry + 2));
      r := CompileEndOfLoop(n.step, entry, entry + 3);
    }

    method CompileSwitch(n: Node) returns (r: Attempt<Operand>)
      requires Valid() && n.Switch?
      modifies this, list`firstInstruction, list`lastInstruction, list`nodes, list`owned, list.owned
      ensures Valid() && fresh(list.owned - old(list.owned))
      ensures r.Success? ==> breakLabel == old(breakLabel) && continueLabel == old(continueLabel)
      ensures Agrees(Compile(n, old(State()), old(breakLabel), old(continueLabel)), r, State())
      decreases n, 0
    {
      hide Valid, State, CompileAll, CompileBodies, CompileDefault, NewTemporary, EmitCaseJump;
      var o :- CompileNode(n.scrutinee);
      var ks :- CompileNodes(n.keys);
      var first := CaseJump(o, ks);
      var result := Temporary(n.kind);
      var _ :- CompileCases(n.bodies, first, first + |ks| + 1, result);
      var _ :- CompileDefaultCase(n.whenNone, first + |ks|, first + |ks| + 1, result);
      r := Success(result);
    }

    method CaseJump(o: Operand, ks: seq<Operand>) returns (first: nat)
      requires Valid()
      modifies this`labelCount, list`firstInstruction, list`lastInstruction, list`nodes, list`owned, list.owned
      ensures Valid() && fresh(list.owned - old(list.owned))
      ensures first == old(State()).labels && State() == EmitCaseJump(old(State()), o, ks)
    {
      hide Valid, EmitCountExtension, Displacements;
      first := CreateLabels(|ks| + 2);
      CountExtension(CASE_JUMP, 2 + |ks|);
      EmitItem(Instruction(CASE_JUMP, [o] + ks + Displacements(first, |ks| + 1)));
    }

    /** The cases of a switch, in order. */
    method CompileCases(ns: seq<Node>, first: nat, merge: nat, result: Operand) returns (r: Attempt<()>)
      requires Valid()
      modifies this, list`firstInstruction, list`lastInstruction, list`nodes, list`owned, list.owned
      ensures Valid() && fresh(list.owned - old(list.owned))
      ensures r.Success? ==> breakLabel == old(breakLabel) && continueLabel == old(continueLabel)
      ensures AgreesState(CompileBodies(ns, old(State()), first, merge, result, old(breakLabel),
                                        old(continueLabel)), r, State())
      decreases ns, 0
    {
      hide Valid, State, Compile, EmitMove;
      ghost var spec := CompileBodies(ns, State(), first, merge, result, breakLabel, continueLabel);
      var i := 0;
      assert ns[0..] == ns;
      while i < |ns|
        invariant i <= |ns| && Valid() && fresh(list.owned - old(list.owned))
        invariant breakLabel == old(breakLabel) && continueLabel == old(continueLabel)
        invariant spec == CompileBodies(ns[i..], State(), first + i, merge, result, breakLabel, continueLabel)
      {
        assert CompileBodies(ns[i..], State(), first + i, merge, result, breakLabel, continueLabel) ==
               match Compile(ns[i], Emit(State(), Label(first + i)), breakLabel, continueLabel)
               case Success(pair) =>
                 CompileBodies(ns[i + 1..], Emit(EmitMove(pair.0, result, pair.1), Instruction(JUMP, [To(merge)])),
                               first + i + 1, merge, result, breakLabel, continueLabel)
               case Failure(message) => Failure(message) by {
          hide Compile, EmitMove;
          assert ns[i..][0] == ns[i] && ns[i..][1..] == ns[i + 1..];
        }
        EmitItem(Label(first + i));
        var o :- CompileNode(ns[i]);
        Move(result, o);
        EmitItem(Instruction(JUMP, [To(merge)]));
        i := i + 1;
      }
      assert CompileBodies(ns[i..], State(), first + i, merge, result, breakLabel, continueLabel) == Success(State());
      r := Success(());
    }

    method CompileDefaultCase(n: Option<Node>, otherwise: nat, merge: nat, result: Operand) returns (r: Attempt<()>)
      requires Valid()
      modifies this, list`firstInstruction, list`lastInstruction, list`nodes, list`owned, list.owned
      ensures Valid() && fresh(list.owned - old(list.owned))
      ensures r.Success? ==> breakLabel == old(breakLabel) && continueLabel == old(continueLabel)
      ensures AgreesState(CompileDefault(n, old(State()), otherwise, merge, result, old(breakLabel),
                                         old(continueLabel)), r, State())
      decreases n, 3
    {
      hide Valid, State, CompileOrNull, EmitMove;
      EmitItem(Label(otherwise));
      var o :- CompileNodeOrNull(n);
      Move(result, o);
      EmitItem(Label(merge));
      r := Success(());
    }
  }

  ghost function BranchCode(n: Option<Node>, s: Assembly, result: Operand, brk: Option<nat>,
                            cont: Option<nat>): Attempt<Assembly> {
    var (s1, o) :- CompileOrNull(n, s, brk, cont);
    Success(EmitMove(s1, result, o))
  }

  /** Compiling the remaining nodes when `os` are the operands of those before. */
  ghost function AllFrom(ns: seq<Node>, s: Assembly, brk: Option<nat>, cont: Option<nat>, os: seq<Operand>)
    : Attempt<(Assembly, seq<Operand>)>
  {
    match CompileAll(ns, s, brk, cont)
    case Success(pair) => Success((pair.0, os + pair.1))
    case Failure(message) => Failure(message)
  }

  lemma AllFromEnd(s: Assembly, brk: Option<nat>, cont: Option<nat>, os: seq<Operand>)
    ensures AllFrom([], s, brk, cont, os) == Success((s, os))
  {
    assert os + [] == os;
  }
}
