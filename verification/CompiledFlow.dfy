/** Every compiled list assigns its temporaries definitely. */
module CompiledFlow {
  import opened Values
  import opened Instructions
  import opened SyntaxTree
  import opened Compiler
  import opened CompilerShape
  import opened DefiniteAssignment

  ghost predicate Below(live: set<nat>, k: nat) {
    forall t :: t in live ==> t < k
  }

  /** A flow of the instructions so far, over the temporaries and labels created so far. */
  ghost predicate Flows(s: Assembly, f: Flow) {
    && FlowsOn(s.items, f)
    && (forall i :: 0 <= i < |f.live| ==> Below(f.live[i], s.temporaries))
    && (forall l :: l in f.at ==> l < s.labels && Below(f.at[l], s.temporaries))
    && (forall i, r: nat, t: nat :: 0 <= i < |s.items| && RefersBy(s.items[i], r, t) ==> r < s.temporaries)
  }

  /** Labels keep what they need; new ones are numbered from h on. */
  ghost predicate Extended(h: nat, at: map<nat, set<nat>>, at1: map<nat, set<nat>>) {
    && (forall l :: l in at ==> l in at1 && at1[l] == at[l])
    && (forall l :: l in at1 && l !in at ==> l >= h)
  }

  /** What was live still is; the rest is new. */
  ghost predicate Within(k: nat, live: set<nat>, live1: set<nat>) {
    live <= live1 && forall t :: t in live1 && t !in live ==> t >= k
  }

  /** The operands of the bindings in scope are live. */
  ghost predicate InScope(bindings: map<Binding, Operand>, live: set<nat>, names: set<Binding>) {
    forall b :: b in names ==> b in bindings && LocalOf(bindings[b]) <= live
  }

  ghost predicate Offers(at: map<nat, set<nat>>, live: set<nat>, exit: Option<nat>) {
    exit.Some? ==> exit.value in at && at[exit.value] <= live
  }

  /** What a jump to the label brings along is live. */
  ghost predicate Open(f: Flow, exit: Option<nat>) {
    Offers(f.at, Last(f), exit)
  }

  ghost predicate Enters(s: Assembly, f: Flow, names: set<Binding>, brk: Option<nat>, cont: Option<nat>) {
    Flows(s, f) && InScope(s.bindings, Last(f), names) && Open(f, brk) && Open(f, cont)
  }

  ghost predicate Leaves(s: Assembly, f: Flow, s1: Assembly, f1: Flow, names: set<Binding>) {
    && Flows(s1, f1) && Extended(s.labels, f.at, f1.at) && Within(s.temporaries, Last(f), Last(f1))
    && InScope(s1.bindings, Last(f1), names)
  }

  lemma LeavesThrough(s: Assembly, f: Flow, s1: Assembly, f1: Flow, s2: Assembly, f2: Flow, names1: set<Binding>,
                      names2: set<Binding>)
    requires Leaves(s, f, s1, f1, names1) && Leaves(s1, f1, s2, f2, names2) && Grown(s, s1)
    ensures Leaves(s, f, s2, f2, names2)
  {
    hide Flows, InScope;
  }

  lemma EntersAfter(s: Assembly, f: Flow, s1: Assembly, f1: Flow, names: set<Binding>, names1: set<Binding>,
                    brk: Option<nat>, cont: Option<nat>)
    requires Enters(s, f, names, brk, cont) && Leaves(s, f, s1, f1, names1)
    ensures Enters(s1, f1, names1, brk, cont)
  {
    hide Flows, InScope;
  }

  /** Bindings that are not defined anew stay in scope. */
  lemma ScopeStays(s: Assembly, s1: Assembly, defined: set<Binding>, live: set<nat>, live1: set<nat>,
                   names: set<Binding>)
    requires InScope(s.bindings, live, names) && Rebound(s, s1, defined) && s.bindings.Keys !! defined && live <= live1
    ensures InScope(s1.bindings, live1, names)
  {
  }

  // Single items.

  lemma FlowsGrown(s: Assembly, s1: Assembly, f: Flow)
    requires Flows(s, f) && s1.items == s.items && s.temporaries <= s1.temporaries && s.labels <= s1.labels
    ensures Flows(s1, f)
  {
    hide FlowsOn, RefersBy;
  }

  /** The flow leaves the code of a node with the names of the scope, and its result set. */
  ghost predicate LeavesNode(s: Assembly, f: Flow, r: Compiled, f1: Flow, names: Option<set<Binding>>) {
    r.Success? && names.Some? && Leaves(s, f, r.value.0, f1, names.value) && LocalOf(r.value.1) <= Last(f1)
  }

  ghost predicate LeavesCode(s: Assembly, f: Flow, r: Attempt<Assembly>, f1: Flow, names: Option<set<Binding>>) {
    r.Success? && names.Some? && Leaves(s, f, r.value, f1, names.value)
  }

  ghost predicate LeavesAll(s: Assembly, f: Flow, r: Attempt<(Assembly, seq<Operand>)>, f1: Flow,
                            names: Option<set<Binding>>) {
    r.Success? && names.Some? && Leaves(s, f, r.value.0, f1, names.value) && AllLive(r.value.1, Last(f1))
  }

  ghost predicate GrownNode(s: Assembly, r: Compiled) {
    r.Success? && r.value.1.In? && Grown(s, r.value.0)
  }

  /** Nothing so far lives in local t, and no reference is made in it. */
  ghost predicate Unused(s: Assembly, f: Flow, t: nat) {
    && (forall live :: live in f.live ==> t !in live) && (forall l :: l in f.at ==> t !in f.at[l])
    && (forall i, u: nat :: 0 <= i < |s.items| ==> !RefersBy(s.items[i], t, u))
  }

  lemma EmitFlows(s: Assembly, f: Flow, item: Item)
    requires Flows(s, f) && Passes(item, Last(f), Last(f) + Written(item), f.at) && Below(Written(item), s.temporaries)
    requires Supported(s.items, Last(f) + Written(item))
    requires item.Instruction? && item.opcode.SLOT_REFERENCE_AT? ==> forall t :: t in Written(item) ==> Unused(s, f, t)
    ensures Flows(Emit(s, item), Extend(f, Last(f) + Written(item)))
    ensures Last(Extend(f, Last(f) + Written(item))) == Last(f) + Written(item)
  {
    var s1, f1 := Emit(s, item), Extend(f, Last(f) + Written(item));
    ExtendGuided(s.items, f, item, Last(f) + Written(item));
    forall i | 0 <= i < |f1.live| ensures Supported(s1.items, f1.live[i]) && Below(f1.live[i], s1.temporaries) {
      if i < |f.live| {
        assert f1.live[i] in f.live;
        StillSupported(s, f, item, f.live[i]);
      } else {
        assert Supported(s.items + [item], Last(f) + Written(item)) by {
          var all := s.items + [item];
          forall i, r: nat, t: nat | 0 <= i < |all| && RefersBy(all[i], r, t) && r in Last(f) + Written(item)
            ensures t in Last(f) + Written(item)
          {
            if i == |s.items| { assert Reads(item, t); } else { assert all[i] == s.items[i]; }
          }
        }
      }
    }
    forall l | l in f1.at ensures Supported(s1.items, f1.at[l]) { StillSupported(s, f, item, f.at[l]); }
    forall i, r: nat, t: nat | 0 <= i < |s1.items| && RefersBy(s1.items[i], r, t) ensures r < s1.temporaries {
      if i == |s.items| { assert r in Written(item); } else { assert s1.items[i] == s.items[i]; }
    }
  }

  lemma StillSupported(s: Assembly, f: Flow, item: Item, live: set<nat>)
    requires Supported(s.items, live) && (live in f.live || exists l :: l in f.at && f.at[l] == live)
    requires item.Instruction? && item.opcode.SLOT_REFERENCE_AT? ==> forall t :: t in Written(item) ==> Unused(s, f, t)
    ensures Supported(s.items + [item], live)
  {
    hide Passes;
    var all := s.items + [item];
    assert forall r: nat, t: nat :: RefersBy(item, r, t) ==> r in Written(item);
    forall i, r: nat, t: nat | 0 <= i < |all| && RefersBy(all[i], r, t) && r in live ensures t in live {
      if i < |s.items| { assert all[i] == s.items[i]; }
    }
  }

  /** An operand that an instruction may read: live, or no local. */
  ghost predicate AllLive(os: seq<Operand>, live: set<nat>) {
    forall j :: 0 <= j < |os| ==> LocalOf(os[j]) <= live
  }

  lemma LastParts(s: Assembly, f: Flow)
    requires Flows(s, f)
    ensures Supported(s.items, Last(f)) && Below(Last(f), s.temporaries) && |f.live| == |s.items| + 1
  {
  }

  /** Instructions without destination, and jumps to open labels. */
  lemma EffectFlows(s: Assembly, f: Flow, op: Opcode, os: seq<Operand>) returns (f1: Flow)
    requires Flows(s, f) && DestinationCount(op) == 0 && AllLive(os, Last(f))
    requires forall l: nat :: To(l) in os ==> Open(f, Some(l))
    ensures Flows(Emit(s, Instruction(op, os)), f1) && f1.at == f.at && Last(f1) == Last(f)
    ensures forall t: nat :: Unused(s, f, t) ==> Unused(Emit(s, Instruction(op, os)), f1, t)
  {
    hide Flows, Supported;
    var item := Instruction(op, os);
    assert Written(item) == {};
    assert Last(f) + {} == Last(f);
    LastParts(s, f);
    forall t: nat | Reads(item, t) ensures t in Last(f) {
      var j :| 0 <= j < |os| && os[j] == In(Locals, t);
      assert LocalOf(os[j]) <= Last(f);
    }
    EmitFlows(s, f, item);
    f1 := Extend(f, Last(f));
    forall t: nat | Unused(s, f, t) ensures Unused(Emit(s, item), f1, t) {
      assert Last(f) in f.live;
      var all := s.items + [item];
      forall i, u: nat | 0 <= i < |all| ensures !RefersBy(all[i], t, u) {
        if i < |s.items| { assert all[i] == s.items[i]; }
      }
    }
  }

  lemma ArrangeLive(op: Opcode, os: seq<Operand>, live: set<nat>)
    requires AllLive(os, live) && forall j :: 0 <= j < |os| ==> os[j].In?
    ensures AllLive(Arrange(op, os), live) && forall j :: 0 <= j < |Arrange(op, os)| ==> Arrange(op, os)[j].In?
  {
    hide LocalOf;
  }

  /** An instruction that computes an unused temporary, or nothing that is kept. */
  lemma ResultFlows(s: Assembly, f: Flow, op: Opcode, d: Operand, args: seq<Operand>) returns (f1: Flow)
    requires Flows(s, f) && DestinationCount(op) == 1 && AllLive(args, Last(f)) && !d.To?
    requires forall j :: 0 <= j < |args| ==> args[j].In?
    requires forall t :: t in LocalOf(d) ==> Unused(s, f, t) && t < s.temporaries
    ensures Flows(Emit(s, Instruction(op, [d] + args)), f1) && f1.at == f.at && Last(f1) == Last(f) + LocalOf(d)
  {
    hide Flows;
    var item := Instruction(op, [d] + args);
    assert item.operands[0] == d && Written(item) == LocalOf(d);
    LastParts(s, f);
    forall t: nat | Reads(item, t) ensures t in Last(f) {
      var j :| 1 <= j < |item.operands| && item.operands[j] == In(Locals, t);
      assert LocalOf(args[j - 1]) <= Last(f);
    }
    assert Last(f) in f.live;
    EmitFlows(s, f, item);
    f1 := Extend(f, Last(f) + LocalOf(d));
  }

  lemma CountExtensionFlows(s: Assembly, f: Flow, op: Opcode, count: nat) returns (f1: Flow)
    requires Flows(s, f)
    ensures Flows(EmitCountExtension(s, op, count), f1) && f1.at == f.at && Last(f1) == Last(f)
    ensures forall t: nat :: Unused(s, f, t) ==> Unused(EmitCountExtension(s, op, count), f1, t)
  {
    hide Flows, Unused;
    f1 := f;
    var s1 := EmitCountExtension(s, op, count);
    if s1 != s { f1 := EffectFlows(s, f, COUNT_EXTENSION, s1.items[|s.items|].operands); }
  }

  lemma NewTemporaryFlows(s: Assembly, f: Flow, kind: TypeKind)
    requires Flows(s, f)
    ensures var (s1, r) := NewTemporary(s, kind);
            && Flows(s1, f) && r.In? && s1.items == s.items && s1.labels == s.labels && s1.bindings == s.bindings
            && forall t :: t in LocalOf(r) ==> t == s.temporaries < s1.temporaries && Unused(s1, f, t)
  {
    var (s1, r) := NewTemporary(s, kind);
    FlowsGrown(s, s1, f);
    assert Unused(s, f, s.temporaries) by {
      forall live | live in f.live ensures s.temporaries !in live {
        var i :| 0 <= i < |f.live| && f.live[i] == live;
      }
    }
    assert Unused(s, f, s.temporaries) ==> Unused(s1, f, s.temporaries);
  }

  /** The code emitted for an operation reads live temporaries and sets a new one. */
  lemma OperationFlows(s: Assembly, f: Flow, op: Opcode, os: seq<Operand>, kind: TypeKind) returns (f1: Flow)
    requires Flows(s, f) && IsOperation(op) && AllLive(os, Last(f)) && forall j :: 0 <= j < |os| ==> os[j].In?
    ensures var (s1, o) := EmitOperation(s, op, os, kind);
            && Flows(s1, f1) && f1.at == f.at && Within(s.temporaries, Last(f), Last(f1)) && LocalOf(o) <= Last(f1)
            && s1.bindings == s.bindings
  {
    hide Flows, Unused, NewTemporary, Arrange, AddLiteral;
    ArrangeLive(op, os, Last(f));
    var args := Arrange(op, os);
    if DestinationCount(op) == 0 {
      f1 := CountExtensionFlows(s, f, op, |os|);
      f1 := EffectFlows(EmitCountExtension(s, op, |os|), f1, op, args);
      var s1 := Emit(EmitCountExtension(s, op, |os|), Instruction(op, args));
      LiteralFlows(s1, f1, Void);
      assert (var s1 := EmitCountExtension(s, op, |os|);
              s1.bindings == s.bindings && s1.temporaries == s.temporaries && s1.labels == s.labels);
    } else {
      NewTemporaryFlows(s, f, kind);
      var (s1, r) := NewTemporary(s, kind);
      var d := if IsCall(op) && kind.VoidKind? then Missing else r;
      f1 := CountExtensionFlows(s1, f, op, |os| + 1);
      assert (var s1' := EmitCountExtension(s1, op, |os| + 1);
              s1'.bindings == s1.bindings && s1'.temporaries == s1.temporaries && s1'.labels == s1.labels);
      var s0 := EmitCountExtension(s1, op, |os| + 1);
      f1 := ResultFlows(s0, f1, op, d, args);
      var s2 := Emit(s0, Instruction(op, [d] + args));
      VoidIsNoLocal(s, kind);
      if IsCall(op) && kind.EscapeKind? { f1 := EffectFlows(s2, f1, UNREACHABLE, []); }
    }
  }

  lemma VoidIsNoLocal(s: Assembly, kind: TypeKind)
    ensures kind.VoidKind? ==> LocalOf(NewTemporary(s, kind).1) == {}
  {
  }

  lemma LiteralFlows(s: Assembly, f: Flow, v: Value)
    requires Flows(s, f)
    ensures var (s1, o) := AddLiteral(s, v);
            && Flows(s1, f) && LocalOf(o) == {} && s1.bindings == s.bindings && s1.items == s.items
            && s1.temporaries == s.temporaries && s1.labels == s.labels
  {
    hide Flows;
    FlowsGrown(s, AddLiteral(s, v).0, f);
  }

  /** Moving a value to the temporary of a merge point. */
  lemma MoveFlows(s: Assembly, f: Flow, r: Operand, o: Operand) returns (f1: Flow)
    requires Flows(s, f) && r.In? && o.In? && LocalOf(o) <= Last(f) && LocalOf(r) !! Last(f)
             && Below(LocalOf(r), s.temporaries)
    requires Supported(s.items, Last(f) + LocalOf(r))
    ensures Flows(EmitMove(s, r, o), f1) && f1.at == f.at && Last(f1) == Last(f) + LocalOf(r)
  {
    hide Flows, Supported;
    f1 := f;
    if r.vector.Locals? {
      var item := Instruction(MOVE, [r, o]);
      assert Written(item) == LocalOf(r);
      forall t: nat | Reads(item, t) ensures t in Last(f) { assert o == In(Locals, t); }
      EmitFlows(s, f, item);
      f1 := Extend(f, Last(f) + LocalOf(r));
    } else {
      assert Last(f) + {} == Last(f);
    }
  }

  /** A label may be placed where everything that it needs is live; nothing else is live behind it. */
  lemma PlaceFlows(s: Assembly, f: Flow, l: nat) returns (f1: Flow)
    requires Flows(s, f) && Open(f, Some(l))
    ensures Flows(Emit(s, Label(l)), f1) && f1.at == f.at && Last(f1) == f.at[l]
  {
    var live := f.at[l];
    assert Supported(s.items, f.at[l]) && Below(f.at[l], s.temporaries) && l < s.labels;
    assert Flows(s, Forget(f, live)) && Last(Forget(f, live)) == live by {
      hide Passes, Supported, RefersBy;
      ForgetGuided(s.items, f, live);
    }
    var f0 := Forget(f, live);
    assert f0.at == f.at && Written(Label(l)) == {} && live + {} == live;
    EmitFlows(s, f0, Label(l));
    f1 := Extend(f0, live);
  }

  function Assign(f: Flow, l: nat, live: set<nat>): Flow {
    f.(at := f.at[l := live])
  }

  /** A new label is given what it needs. */
  lemma AssignFlows(s: Assembly, f: Flow, l: nat, live: set<nat>)
    requires Flows(s, f) && l < s.labels && l !in f.at && Supported(s.items, live) && Below(live, s.temporaries)
    ensures Flows(s, Assign(f, l, live)) && Last(Assign(f, l, live)) == Last(f)
  {
    hide Supported, RefersBy;
    var f1 := Assign(f, l, live);
    forall i | 0 <= i < |s.items| ensures Passes(s.items[i], f1.live[i], f1.live[i + 1], f1.at) {
      assert Passes(s.items[i], f.live[i], f.live[i + 1], f.at);
    }
  }

  lemma JumpFlows(s: Assembly, f: Flow, l: nat) returns (f1: Flow)
    requires Flows(s, f) && Open(f, Some(l))
    ensures Flows(Emit(s, Instruction(JUMP, [To(l)])), f1) && f1.at == f.at && Last(f1) == Last(f)
  {
    hide Flows;
    f1 := EffectFlows(s, f, JUMP, [To(l)]);
  }

  lemma JumpIfFalseFlows(s: Assembly, f: Flow, o: Operand, l: nat) returns (f1: Flow)
    requires Flows(s, f) && Open(f, Some(l)) && LocalOf(o) <= Last(f) && o.In?
    ensures Flows(Emit(s, Instruction(JUMP_IF_FALSE, [o, To(l)])), f1) && f1.at == f.at && Last(f1) == Last(f)
  {
    hide Flows;
    f1 := EffectFlows(s, f, JUMP_IF_FALSE, [o, To(l)]);
  }

  lemma JumpAndLabelFlows(s: Assembly, f: Flow, target: nat, l: nat) returns (f1: Flow)
    requires Flows(s, f) && Open(f, Some(target)) && Open(f, Some(l))
    ensures Flows(EmitJumpAndLabel(s, target, l), f1) && f1.at == f.at && Last(f1) == f.at[l]
  {
    hide Flows;
    f1 := JumpFlows(s, f, target);
    f1 := PlaceFlows(Emit(s, Instruction(JUMP, [To(target)])), f1, l);
  }

  // Merge points.

  /** The label is where branches that start here meet, with their value in r. */
  ghost predicate Merges(s: Assembly, at: map<nat, set<nat>>, live: set<nat>, r: Operand, merge: nat) {
    && merge in at && at[merge] == live + LocalOf(r)
    && r.In? && LocalOf(r) !! live && Below(LocalOf(r), s.temporaries)
  }

  /** The end of a branch: its value is moved to the merged temporary. */
  lemma MergeFlows(s: Assembly, at: map<nat, set<nat>>, live: set<nat>, s1: Assembly, f1: Flow, r: Operand, o: Operand,
                   merge: nat)
    returns (f2: Flow)
    requires Merges(s, at, live, r, merge) && Flows(s1, f1) && Extended(s.labels, at, f1.at)
    requires Within(s.temporaries, live, Last(f1)) && s.temporaries <= s1.temporaries && o.In? && LocalOf(o) <= Last(f1)
    ensures Flows(EmitMove(s1, r, o), f2) && f2.at == f1.at && Last(f2) == Last(f1) + LocalOf(r)
    ensures Open(f2, Some(merge))
  {
    assert Supported(s1.items, f1.at[merge]) && Below(f1.at[merge], s1.temporaries) && merge < s1.labels;
    LastParts(s1, f1);
    assert Supported(s1.items, Last(f1) + at[merge]);
    assert Last(f1) + at[merge] == Last(f1) + LocalOf(r);
    f2 := MoveFlows(s1, f1, r, o);
  }

  /** A new temporary for the value of branches, and what is live where they meet. */
  lemma MergePointFlows(s: Assembly, f: Flow, kind: TypeKind, merge: nat) returns (f1: Flow)
    requires Flows(s, f) && merge < s.labels && merge !in f.at
    ensures var (s1, r) := NewTemporary(s, kind);
            && f1 == Assign(f, merge, Last(f) + LocalOf(r)) && Flows(s1, f1) && Last(f1) == Last(f)
            && Merges(s1, f1.at, Last(f), r, merge) && s1.bindings == s.bindings && s1.labels == s.labels
            && Within(s.temporaries, Last(f), Last(f) + LocalOf(r))
  {
    hide Flows, NewTemporary;
    var (s1, r) := NewTemporary(s, kind);
    NewTemporaryFlows(s, f, kind);
    LastParts(s, f);
    LastParts(s1, f);
    assert Last(f) in f.live;
    forall t | t in LocalOf(r) ensures t !in Last(f) {}
    assert Supported(s1.items, Last(f) + LocalOf(r));
    f1 := Assign(f, merge, Last(f) + LocalOf(r));
    AssignFlows(s1, f, merge, Last(f) + LocalOf(r));
  }

  // Every node.

  /** Code for a node reads live temporaries only, and what it binds or yields is live behind it. */
  lemma {:induction false} NodeFlows(n: Node, s: Assembly, f: Flow, names: set<Binding>, brk: Option<nat>,
                                     cont: Option<nat>, pending: set<nat>) returns (f1: Flow)
    requires WellFormed(n) && Valid(s, pending) && Defined(n) !! s.bindings.Keys && Compile(n, s, brk, cont).Success?
    requires Enters(s, f, names, brk, cont) && Scoped(n, names).Some?
    ensures LeavesNode(s, f, Compile(n, s, brk, cont), f1, Scoped(n, names))
    decreases n, 1
  {
    hide *;
    match n
    case Literal(_) => f1 := LeafFlows(n, s, f, names, brk, cont);
    case Reference(_) => f1 := LeafFlows(n, s, f, names, brk, cont);
    case Sequence(_) => f1 := SequenceFlows(n, s, f, names, brk, cont, pending);
    case Variable(_, _, _, _, _, _) => f1 := VariableFlows(n, s, f, names, brk, cont, pending);
    case Operation(_, _, _) => f1 := OperationNodeFlows(n, s, f, names, brk, cont, pending);
    case If(_, _, _, _) => f1 := IfFlows(n, s, f, names, brk, cont, pending);
    case Switch(_, _, _, _, _) => f1 := SwitchFlows(n, s, f, names, brk, cont, pending);
    case While(_, _, _) => f1 := WhileFlows(n, s, f, names, brk, cont, pending);
    case DoWhile(_, _, _) => f1 := DoWhileFlows(n, s, f, names, brk, cont, pending);
    case Break => f1 := LeafFlows(n, s, f, names, brk, cont);
    case Continue => f1 := LeafFlows(n, s, f, names, brk, cont);
    case Return(_) => f1 := ReturnFlows(n, s, f, names, brk, cont, pending);
  }

  lemma EntersFlows(s: Assembly, f: Flow, names: set<Binding>, brk: Option<nat>, cont: Option<nat>)
    requires Enters(s, f, names, brk, cont)
    ensures Flows(s, f) && InScope(s.bindings, Last(f), names) && Open(f, brk) && Open(f, cont)
  {
  }

  /** Emission that keeps labels, bindings and the known temporaries. */
  lemma LeavesBy(s: Assembly, f: Flow, s1: Assembly, f1: Flow, names: set<Binding>)
    requires InScope(s.bindings, Last(f), names) && Flows(s1, f1) && f1.at == f.at && s1.bindings == s.bindings
    requires Within(s.temporaries, Last(f), Last(f1))
    ensures Leaves(s, f, s1, f1, names)
  {
    hide Flows;
  }

  lemma LeafFlows(n: Node, s: Assembly, f: Flow, names: set<Binding>, brk: Option<nat>, cont: Option<nat>)
    returns (f1: Flow)
    requires n.Literal? || n.Reference? || n.Break? || n.Continue?
    requires Compile(n, s, brk, cont).Success? && Enters(s, f, names, brk, cont) && Scoped(n, names).Some?
    ensures LeavesNode(s, f, Compile(n, s, brk, cont), f1, Scoped(n, names))
  {
    hide Flows, AddLiteral, Leaves;
    f1 := f;
    if n.Literal? {
      LiteralFlows(s, f, n.value);
    } else if !n.Reference? {
      var l := if n.Break? then brk.value else cont.value;
      f1 := JumpFlows(s, f, l);
      LiteralFlows(Emit(s, Instruction(JUMP, [To(l)])), f1, Void);
    }
    LeavesBy(s, f, Compile(n, s, brk, cont).value.0, f1, names);
  }

  lemma {:induction false} AllFlows(ns: seq<Node>, s: Assembly, f: Flow, names: set<Binding>, brk: Option<nat>,
                                    cont: Option<nat>, pending: set<nat>) returns (f1: Flow)
    requires AllWellFormed(ns) && Valid(s, pending) && DefinedInAll(ns) !! s.bindings.Keys
             && CompileAll(ns, s, brk, cont).Success?
    requires Enters(s, f, names, brk, cont) && ScopedAll(ns, names).Some?
    ensures LeavesAll(s, f, CompileAll(ns, s, brk, cont), f1, ScopedAll(ns, names))
    decreases ns, 0
  {
    hide Flows, Enters, Leaves, Valid, Compile, ValidOperand, LocalOf;
    if ns == [] {
      EntersFlows(s, f, names, brk, cont);
      f1 := f;
      LeavesBy(s, f, s, f1, names);
    } else {
      f1 := NodeFlows(ns[0], s, f, names, brk, cont, pending);
      CompileShape(ns[0], s, brk, cont, pending);
      var (s1, o) := Compile(ns[0], s, brk, cont).value;
      var names1 := Scoped(ns[0], names).value;
      EntersAfter(s, f, s1, f1, names, names1, brk, cont);
      var f2 := AllFlows(ns[1..], s1, f1, names1, brk, cont, pending);
      var (s2, os) := CompileAll(ns[1..], s1, brk, cont).value;
      LeavesThrough(s, f, s1, f1, s2, f2, names1, ScopedAll(ns, names).value);
      LeavesLive(s1, f1, s2, f2, ScopedAll(ns, names).value);
      f1 := f2;
    }
  }

  lemma LeavesLive(s: Assembly, f: Flow, s1: Assembly, f1: Flow, names: set<Binding>)
    requires Leaves(s, f, s1, f1, names)
    ensures Flows(s1, f1) && Last(f) <= Last(f1) && InScope(s1.bindings, Last(f1), names)
    ensures Extended(s.labels, f.at, f1.at) && Within(s.temporaries, Last(f), Last(f1))
  {
  }

  lemma {:induction false} SequenceFlows(n: Node, s: Assembly, f: Flow, names: set<Binding>, brk: Option<nat>,
                                         cont: Option<nat>, pending: set<nat>) returns (f1: Flow)
    requires n.Sequence? && WellFormed(n) && Valid(s, pending) && Defined(n) !! s.bindings.Keys
             && Compile(n, s, brk, cont).Success?
    requires Enters(s, f, names, brk, cont) && Scoped(n, names).Some?
    ensures LeavesNode(s, f, Compile(n, s, brk, cont), f1, Scoped(n, names))
    decreases n, 0
  {
    hide Enters, Valid, CompileAll, AddLiteral, LocalOf, ScopedAll;
    f1 := AllFlows(n.expressions, s, f, names, brk, cont, pending);
    var (s1, os) := CompileAll(n.expressions, s, brk, cont).value;
    LeavesLive(s, f, s1, f1, Scoped(n, names).value);
    LiteralFlows(s1, f1, Void);
    assert Leaves(s, f, AddLiteral(s1, Void).0, f1, Scoped(n, names).value);
  }

  lemma {:induction false} OptionFlows(n: Option<Node>, s: Assembly, f: Flow, names: set<Binding>, brk: Option<nat>,
                                       cont: Option<nat>, pending: set<nat>) returns (f1: Flow)
    requires OptionWellFormed(n) && Valid(s, pending) && DefinedIn(n) !! s.bindings.Keys
             && CompileOrNull(n, s, brk, cont).Success?
    requires Enters(s, f, names, brk, cont) && ScopedOptional(n, names).Some?
    ensures LeavesNode(s, f, CompileOrNull(n, s, brk, cont), f1, ScopedOptional(n, names))
    ensures GrownNode(s, CompileOrNull(n, s, brk, cont))
    decreases n, 2
  {
    hide Flows, Enters, Leaves, Valid, AddLiteral, LocalOf, Scoped, Compile;
    CompileOrNullShape(n, s, brk, cont, pending);
    if n.Some? {
      f1 := NodeFlows(n.value, s, f, names, brk, cont, pending);
    } else {
      EntersFlows(s, f, names, brk, cont);
      f1 := f;
      LiteralFlows(s, f, Null);
      LeavesBy(s, f, AddLiteral(s, Null).0, f1, names);
    }
  }

  lemma {:induction false} IfPresentFlows(n: Option<Node>, s: Assembly, f: Flow, names: set<Binding>, brk: Option<nat>,
                                          cont: Option<nat>, pending: set<nat>) returns (f1: Flow)
    requires OptionWellFormed(n) && Valid(s, pending) && DefinedIn(n) !! s.bindings.Keys
             && CompileIfPresent(n, s, brk, cont).Success?
    requires Enters(s, f, names, brk, cont) && ScopedOptional(n, names).Some?
    ensures LeavesCode(s, f, CompileIfPresent(n, s, brk, cont), f1, ScopedOptional(n, names))
    decreases n, 2
  {
    hide Flows, Enters, Leaves, Valid, LocalOf, Scoped, Compile;
    if n.Some? {
      f1 := NodeFlows(n.value, s, f, names, brk, cont, pending);
    } else {
      EntersFlows(s, f, names, brk, cont);
      f1 := f;
      LeavesBy(s, f, s, f1, names);
    }
  }

  lemma {:induction false} VariableFlows(n: Node, s: Assembly, f: Flow, names: set<Binding>, brk: Option<nat>,
                                         cont: Option<nat>, pending: set<nat>) returns (f1: Flow)
    requires n.Variable? && WellFormed(n) && Valid(s, pending) && Defined(n) !! s.bindings.Keys
             && Compile(n, s, brk, cont).Success?
    requires Enters(s, f, names, brk, cont) && Scoped(n, names).Some?
    ensures LeavesNode(s, f, Compile(n, s, brk, cont), f1, Scoped(n, names))
    decreases n, 0
  {
    hide Flows, Enters, Leaves, Valid, CompileOrNull, EmitAlloca, EmitDebugValue, LocalOf, ScopedOptional;
    f1 := OptionFlows(n.initial, s, f, names, brk, cont, pending);
    var (s1, o) := CompileOrNull(n.initial, s, brk, cont).value;
    var names1 := ScopedOptional(n.initial, names).value;
    LeavesLive(s, f, s1, f1, names1);
    var f2 := f1;
    var (s2, v) := if n.isMutable then EmitAlloca(s1, n.pointerType, o) else (s1, o);
    if n.isMutable { f2 := AllocaFlows(s1, f1, n.pointerType, o); }
    LeavesBy(s1, f1, s2, f2, names1);
    LeavesThrough(s, f, s1, f1, s2, f2, names1, names1);
    var f3 := DebugValueFlows(s2, f2, n.isNamed, v, n.symbol);
    var s3 := EmitDebugValue(s2, n.isNamed, v, n.symbol);
    BindFlows(s, f, s2, f2, s3, f3, names1, n.name, v);
    f1 := f3;
  }

  lemma BindFlows(s: Assembly, f: Flow, s2: Assembly, f2: Flow, s3: Assembly, f3: Flow, names: set<Binding>, b: Binding,
                  o: Operand)
    requires Leaves(s, f, s2, f2, names) && Flows(s3, f3) && f3.at == f2.at && Last(f3) == Last(f2)
             && s3.bindings == s2.bindings
    requires LocalOf(o) <= Last(f3)
    ensures Leaves(s, f, s3.(bindings := s3.bindings[b := o]), f3, names + {b})
  {
    hide FlowsOn, RefersBy;
  }

  lemma AllocaFlows(s: Assembly, f: Flow, pointerType: Value, o: Operand) returns (f1: Flow)
    requires Flows(s, f) && LocalOf(o) <= Last(f) && o.In?
    ensures var (s1, d) := EmitAlloca(s, pointerType, o);
            && Flows(s1, f1) && f1.at == f.at && Within(s.temporaries, Last(f), Last(f1))
               && LocalOf(d) <= Last(f1) && d.In?
            && s1.bindings == s.bindings
  {
    hide Flows;
    var (s1, d) := NewTemporary(s, ValueKind);
    NewTemporaryFlows(s, f, ValueKind);
    var (s2, t) := AddLiteral(s1, pointerType);
    LiteralFlows(s1, f, pointerType);
    assert Unused(s1, f, s.temporaries) ==> Unused(s2, f, s.temporaries);
    assert AddLiteral(s1, pointerType).1.In?;
    f1 := ResultFlows(s2, f, ALLOCA_WITH_VALUE, d, [t, o]);
    assert [d] + [t, o] == [d, t, o];
  }

  lemma DebugValueFlows(s: Assembly, f: Flow, isNamed: bool, o: Operand, symbol: Value) returns (f1: Flow)
    requires Flows(s, f) && LocalOf(o) <= Last(f) && o.In?
    ensures var s1 := EmitDebugValue(s, isNamed, o, symbol);
            Flows(s1, f1) && f1.at == f.at && Last(f1) == Last(f) && s1.bindings == s.bindings
  {
    hide Flows, Unused;
    f1 := f;
    if isNamed {
      var (s1, l) := AddLiteral(s, symbol);
      LiteralFlows(s, f, symbol);
      assert AddLiteral(s, symbol).1.In?;
      f1 := EffectFlows(s1, f, SET_DEBUG_VALUE, [o, l]);
    }
  }

  lemma {:induction false} OperationNodeFlows(n: Node, s: Assembly, f: Flow, names: set<Binding>, brk: Option<nat>,
                                              cont: Option<nat>, pending: set<nat>) returns (f1: Flow)
    requires n.Operation? && WellFormed(n) && Valid(s, pending) && Defined(n) !! s.bindings.Keys
             && Compile(n, s, brk, cont).Success?
    requires Enters(s, f, names, brk, cont) && Scoped(n, names).Some?
    ensures LeavesNode(s, f, Compile(n, s, brk, cont), f1, Scoped(n, names))
    decreases n, 0
  {
    hide Flows, Enters, Leaves, Valid, CompileAll, EmitOperation, LocalOf, ScopedAll, IsOperation;
    CompileAllShape(n.parts, s, brk, cont, pending);
    f1 := AllFlows(n.parts, s, f, names, brk, cont, pending);
    var (s1, os) := CompileAll(n.parts, s, brk, cont).value;
    var names1 := ScopedAll(n.parts, names).value;
    LeavesLive(s, f, s1, f1, names1);
    assert forall j :: 0 <= j < |os| ==> ValidOperand(s1, os[j]);
    var f2 := OperationFlows(s1, f1, n.opcode, os, n.kind);
    LeavesBy(s1, f1, EmitOperation(s1, n.opcode, os, n.kind).0, f2, names1);
    LeavesThrough(s, f, s1, f1, EmitOperation(s1, n.opcode, os, n.kind).0, f2, names1, names1);
    f1 := f2;
  }

  lemma {:induction false} ReturnFlows(n: Node, s: Assembly, f: Flow, names: set<Binding>, brk: Option<nat>,
                                       cont: Option<nat>, pending: set<nat>) returns (f1: Flow)
    requires n.Return? && WellFormed(n) && Valid(s, pending) && Defined(n) !! s.bindings.Keys
             && Compile(n, s, brk, cont).Success?
    requires Enters(s, f, names, brk, cont) && Scoped(n, names).Some?
    ensures LeavesNode(s, f, Compile(n, s, brk, cont), f1, Scoped(n, names))
    decreases n, 0
  {
    hide Flows, Enters, Leaves, Valid, LocalOf;
    CompileShape(n.expression, s, brk, cont, pending);
    f1 := NodeFlows(n.expression, s, f, names, brk, cont, pending);
    var (s1, o) := Compile(n.expression, s, brk, cont).value;
    var names1 := Scoped(n.expression, names).value;
    LeavesLive(s, f, s1, f1, names1);
    assert AllLive([o], Last(f1));
    var f2 := EffectFlows(s1, f1, RETURN, [o]);
    LeavesBy(s1, f1, Emit(s1, Instruction(RETURN, [o])), f2, names1);
    LeavesThrough(s, f, s1, f1, Emit(s1, Instruction(RETURN, [o])), f2, names1, names1);
    f1 := f2;
  }

  /** Coming back to a point where the same bindings are in scope. */
  lemma EntersAgain(s: Assembly, f: Flow, s1: Assembly, f1: Flow, defined: set<Binding>, names: set<Binding>, h: nat,
                    brk: Option<nat>, cont: Option<nat>)
    requires Enters(s, f, names, brk, cont) && Flows(s1, f1) && Extended(h, f.at, f1.at) && Last(f) <= Last(f1)
    requires Rebound(s, s1, defined) && defined !! s.bindings.Keys
    ensures Enters(s1, f1, names, brk, cont)
  {
    hide Flows;
    ScopeStays(s, s1, defined, Last(f), Last(f1), names);
  }

  lemma ExtendedThrough(h: nat, h1: nat, at: map<nat, set<nat>>, at1: map<nat, set<nat>>, at2: map<nat, set<nat>>)
    requires Extended(h, at, at1) && Extended(h1, at1, at2) && h <= h1
    ensures Extended(h, at, at2)
  {
  }

  /** A conditional up to its first branch. */
  lemma {:induction false} ConditionFlows(n: Node, s: Assembly, f: Flow, names: set<Binding>, brk: Option<nat>,
                                          cont: Option<nat>, pending: set<nat>) returns (f1: Flow)
    requires n.If? && WellFormed(n.condition) && Valid(s, pending) && Defined(n.condition) !! s.bindings.Keys
    requires Compile(n.condition, s.(labels := s.labels + 2), brk, cont).Success?
    requires Enters(s, f, names, brk, cont) && Scoped(n.condition, names).Some?
    ensures var (s1, o) := Compile(n.condition, s.(labels := s.labels + 2), brk, cont).value;
            var (s2, r) := NewTemporary(Emit(s1, Instruction(JUMP_IF_FALSE, [o, To(s.labels)])), n.kind);
            && Enters(s2, f1, Scoped(n.condition, names).value, brk, cont) && Extended(s.labels, f.at, f1.at)
            && Merges(s2, f1.at, Last(f1), r, s.labels + 1) && s.labels in f1.at && f1.at[s.labels] == Last(f1)
            && Within(s.temporaries, Last(f), Last(f1) + LocalOf(r))
    decreases n, 0, 0
  {
    hide Flows, Leaves, Valid, Compile, NewTemporary, LocalOf, Scoped, InScope, Supported, Below;
    var s0 := s.(labels := s.labels + 2);
    FlowsGrown(s, s0, f);
    CreateLabelsShape(s, 2, pending);
    var all := pending + LabelRange(s.labels, 2);
    var f0 := NodeFlows(n.condition, s0, f, names, brk, cont, all);
    CompileShape(n.condition, s0, brk, cont, all);
    var (s1, o) := Compile(n.condition, s0, brk, cont).value;
    var names1 := Scoped(n.condition, names).value;
    LeavesLive(s0, f, s1, f0, names1);
    LastParts(s1, f0);
    LabelsBelow(s, f);
    f1 := Assign(f0, s.labels, Last(f0));
    AssignFlows(s1, f0, s.labels, Last(f0));
    f1 := JumpIfFalseFlows(s1, f1, o, s.labels);
    var j := Emit(s1, Instruction(JUMP_IF_FALSE, [o, To(s.labels)]));
    f1 := MergePointFlows(j, f1, n.kind, s.labels + 1);
  }

  lemma LabelsBelow(s: Assembly, f: Flow)
    requires Flows(s, f)
    ensures forall l :: l in f.at ==> l < s.labels
  {
  }

  lemma {:induction false} IfFlows(n: Node, s: Assembly, f: Flow, names: set<Binding>, brk: Option<nat>,
                                   cont: Option<nat>, pending: set<nat>) returns (f1: Flow)
    requires n.If? && WellFormed(n) && Valid(s, pending) && Defined(n) !! s.bindings.Keys
             && Compile(n, s, brk, cont).Success?
    requires Enters(s, f, names, brk, cont) && Scoped(n, names).Some?
    ensures LeavesNode(s, f, Compile(n, s, brk, cont), f1, Scoped(n, names))
    decreases n, 0, 1
  {
    hide Flows, Enters, Compile, CompileOrNull, NewTemporary;
    hide EmitMove, EmitJumpAndLabel, LocalOf;
    hide InScope, Extended, ValidOperand;
    IfParts(n, s, brk, cont, pending);
    assert Scoped(n.condition, names).Some? && Scoped(n, names) == Scoped(n.condition, names)
           && ScopedOptional(n.whenTrue, Scoped(n, names).value).Some?
              && ScopedOptional(n.whenFalse, Scoped(n, names).value).Some?;
    var merge, d := s.labels + 1, Scoped(n, names).value;
    var all, rest := pending + {s.labels, s.labels + 1}, pending + {s.labels + 1};
    var (s1, o) := Compile(n.condition, s.(labels := s.labels + 2), brk, cont).value;
    var (s2, r) := NewTemporary(Emit(s1, Instruction(JUMP_IF_FALSE, [o, To(s.labels)])), n.kind);
    var (s3, t) := CompileOrNull(n.whenTrue, s2, brk, cont).value;
    var s3' := EmitMove(s3, r, t);
    var s4 := EmitJumpAndLabel(s3', merge, s.labels);
    var (s5, e) := CompileOrNull(n.whenFalse, s4, brk, cont).value;
    assert DefinedIn(n.whenTrue) !! s2.bindings.Keys && DefinedIn(n.whenFalse) !! s4.bindings.Keys
           && Defined(n.condition) !! s.bindings.Keys && Valid(s2, all) && Valid(s4, rest)
           && Grown(s, s2) && Grown(s2, s4) && Rebound(s2, s4, DefinedIn(n.whenTrue));
    var f2 := ConditionFlows(n, s, f, names, brk, cont, pending);
    var live := Last(f2);
    var f3 := OptionFlows(n.whenTrue, s2, f2, d, brk, cont, all);
    LeavesLive(s2, f2, s3, f3, ScopedOptional(n.whenTrue, d).value);
    var f4 := MergeFlows(s2, f2.at, live, s3, f3, r, t, merge);
    ExtendedAt(s2.labels, f2.at, f4.at, s.labels);
    f4 := JumpAndLabelFlows(s3', f4, merge, s.labels);
    EntersAgain(s2, f2, s4, f4, DefinedIn(n.whenTrue), d, s2.labels, brk, cont);
    var f5 := OptionFlows(n.whenFalse, s4, f4, d, brk, cont, rest);
    LeavesLive(s4, f4, s5, f5, ScopedOptional(n.whenFalse, d).value);
    ExtendedAt(s2.labels, f2.at, f4.at, merge);
    var f6 := MergeFlows(s4, f4.at, live, s5, f5, r, e, merge);
    ExtendedAt(s4.labels, f4.at, f6.at, merge);
    f1 := PlaceFlows(EmitMove(s5, r, e), f6, merge);
    var s6 := Emit(EmitMove(s5, r, e), Label(merge));
    EntersFlows(s4, f4, d, brk, cont);
    ScopeStays(s4, s6, DefinedIn(n.whenFalse), live, Last(f1), d);
    ExtendedThrough(s.labels, s2.labels, f.at, f2.at, f4.at);
    ExtendedThrough(s.labels, s4.labels, f.at, f4.at, f1.at);
  }

  lemma ExtendedAt(h: nat, at: map<nat, set<nat>>, at1: map<nat, set<nat>>, l: nat)
    requires Extended(h, at, at1) && l in at
    ensures l in at1 && at1[l] == at[l]
  {
  }

  // Loops.

  lemma ExtendedMore(h: nat, at: map<nat, set<nat>>, at1: map<nat, set<nat>>, l: nat, live: set<nat>)
    requires Extended(h, at, at1) && l !in at1 && h <= l
    ensures Extended(h, at, at1[l := live])
  {
  }

  /** The start of a loop: the labels in front of it and behind it need what is live here. */
  lemma LoopStartFlows(s: Assembly, f: Flow, names: set<Binding>, brk: Option<nat>, cont: Option<nat>)
    returns (f1: Flow)
    requires Enters(s, f, names, brk, cont)
    ensures Enters(Emit(s.(labels := s.labels + 4), Label(s.labels)), f1, names, brk, cont) && Last(f1) == Last(f)
    ensures f1.at == f.at[s.labels := Last(f)][s.labels + 3 := Last(f)] && Extended(s.labels, f.at, f1.at)
    ensures s.labels + 1 !in f1.at && s.labels + 2 !in f1.at
  {
    hide Flows, InScope, Supported, Below;
    var s0, live := s.(labels := s.labels + 4), Last(f);
    LabelsBelow(s, f);
    FlowsGrown(s, s0, f);
    LastParts(s0, f);
    var f0 := Assign(f, s.labels, live);
    AssignFlows(s0, f, s.labels, live);
    AssignFlows(s0, f0, s.labels + 3, live);
    f1 := PlaceFlows(s0, Assign(f0, s.labels + 3, live), s.labels);
  }

  lemma {:induction false} GuardFlows(n: Option<Node>, s: Assembly, f: Flow, exit: nat, next: nat, names: set<Binding>,
                                      brk: Option<nat>, cont: Option<nat>, pending: set<nat>) returns (f1: Flow)
    requires OptionWellFormed(n) && Valid(s, pending) && DefinedIn(n) !! s.bindings.Keys
    requires CompileGuard(n, s, exit, next, brk, cont).Success?
    requires Enters(s, f, names, brk, cont) && ScopedOptional(n, names).Some?
    requires Open(f, Some(exit)) && next < s.labels && next !in f.at
    ensures Enters(CompileGuard(n, s, exit, next, brk, cont).value, f1, ScopedOptional(n, names).value, brk, cont)
    ensures Extended(s.labels, f.at[next := Last(f1)], f1.at) && Last(f) <= Last(f1)
    decreases n, 2
  {
    hide Flows, Leaves, Valid, InScope, Supported, Below, LocalOf, Compile, Scoped;
    if n.Some? {
      var f0 := NodeFlows(n.value, s, f, names, brk, cont, pending);
      CompileShape(n.value, s, brk, cont, pending);
      var (s1, o) := Compile(n.value, s, brk, cont).value;
      LeavesLive(s, f, s1, f0, ScopedOptional(n, names).value);
      f0 := JumpIfFalseFlows(s1, f0, o, exit);
      var s2 := Emit(s1, Instruction(JUMP_IF_FALSE, [o, To(exit)]));
      LastParts(s2, f0);
      f1 := Assign(f0, next, Last(f0));
      AssignFlows(s2, f0, next, Last(f0));
    } else {
      LastParts(s, f);
      AssignFlows(s, f, next, Last(f));
      f1 := JumpFlows(s, Assign(f, next, Last(f)), next);
    }
  }

  lemma {:induction false} LoopEndFlows(n: Option<Node>, s: Assembly, f: Flow, entry: nat, merge: nat,
                                        names: set<Binding>, brk: Option<nat>, cont: Option<nat>, pending: set<nat>)
                                        returns (f1: Flow)
    requires OptionWellFormed(n) && Valid(s, pending) && DefinedIn(n) !! s.bindings.Keys
    requires CompileLoopEnd(n, s, entry, merge, brk, cont).Success?
    requires Enters(s, f, names, brk, cont) && ScopedOptional(n, names).Some? && Open(f, Some(entry))
             && Open(f, Some(merge))
    ensures var (s1, o) := CompileLoopEnd(n, s, entry, merge, brk, cont).value;
            && Flows(s1, f1) && Extended(s.labels, f.at, f1.at) && Last(f1) == f.at[merge] && LocalOf(o) == {}
    decreases n, 3
  {
    hide Flows, Leaves, Enters, Valid, InScope, LocalOf, CompileIfPresent, EmitJumpAndLabel, AddLiteral, ScopedOptional;
    f1 := IfPresentFlows(n, s, f, names, brk, cont, pending);
    var s1 := CompileIfPresent(n, s, brk, cont).value;
    LeavesLive(s, f, s1, f1, ScopedOptional(n, names).value);
    f1 := JumpAndLabelFlows(s1, f1, entry, merge);
    LiteralFlows(EmitJumpAndLabel(s1, entry, merge), f1, Void);
  }

  /** What a loop defines is new, part by part. */
  lemma LoopNew(n: Node, s: Assembly, s0: Assembly, s1: Assembly, s2: Assembly, a: set<Binding>, b: set<Binding>)
    requires (n.While? || n.DoWhile?) && WellFormed(n) && Defined(n) !! s.bindings.Keys
    requires (a == DefinedIn(n.guard) && b == DefinedIn(n.body)) || (a == DefinedIn(n.body) && b == DefinedIn(n.guard))
    requires Rebound(s, s0, {}) && Rebound(s0, s1, a) && Rebound(s1, s2, b)
    ensures a !! s0.bindings.Keys && b !! s1.bindings.Keys && DefinedIn(n.step) !! s2.bindings.Keys
  {
  }

  /** Behind a loop the bindings in front of it are in scope. */
  lemma LoopLeaves(n: Node, s: Assembly, f: Flow, s1: Assembly, f1: Flow, names: set<Binding>, brk: Option<nat>,
                   cont: Option<nat>)
    requires Enters(s, f, names, brk, cont) && Flows(s1, f1) && Extended(s.labels, f.at, f1.at) && Last(f1) == Last(f)
    requires Rebound(s, s1, Defined(n)) && Defined(n) !! s.bindings.Keys
    ensures Leaves(s, f, s1, f1, names)
  {
    hide Flows;
    ScopeStays(s, s1, Defined(n), Last(f), Last(f1), names);
  }

  lemma {:induction false} WhileFlows(n: Node, s: Assembly, f: Flow, names: set<Binding>, brk: Option<nat>,
                                      cont: Option<nat>, pending: set<nat>) returns (f1: Flow)
    requires n.While? && WellFormed(n) && Valid(s, pending) && Defined(n) !! s.bindings.Keys
             && Compile(n, s, brk, cont).Success?
    requires Enters(s, f, names, brk, cont) && Scoped(n, names).Some?
    ensures LeavesNode(s, f, Compile(n, s, brk, cont), f1, Scoped(n, names))
    decreases n, 0
  {
    hide Flows, Enters, Leaves, Valid, ValidOperand;
    hide Compile, CompileGuard, CompileIfPresent, CompileLoopEnd, EmitJumpAndLabel;
    hide InScope, LocalOf, Rebound, Supported, Below, Extended;
    var entry, start, next, merge := s.labels, s.labels + 1, s.labels + 2, s.labels + 3;
    var p1, p2, p3 := pending + {start, next, merge}, pending + {next, merge}, pending + {merge};
    var s0, s1, s2, s3, s4, o := WhileParts(n, s, brk, cont, pending);
    CompileShape(n, s, brk, cont, pending);
    assert Scoped(n, names) == Some(names) && ScopedOptional(n.guard, names).Some?
           && (var names1 := ScopedOptional(n.guard, names).value;
              ScopedOptional(n.step, names1).Some? && ScopedOptional(n.body, if n.While? then names1 else names).Some?);
    var names1, live := ScopedOptional(n.guard, names).value, Last(f);
    var s1' := Emit(s1, Label(start));
    ShapeThrough(s1', s2, s3, DefinedIn(n.body), {}, p2, p3);
    LoopNew(n, s, s0, s1', s3, DefinedIn(n.guard), DefinedIn(n.body)) by {
      ShapeThrough(s0, s1, s1', DefinedIn(n.guard), {}, p1, p2);
    }
    var f0 := LoopStartFlows(s, f, names, brk, cont);
    var g := GuardFlows(n.guard, s0, f0, merge, start, names, brk, cont, p1);
    var b := BodyStartFlows(s1, f0, g, s0.labels, start, next, merge, live, names1, brk, cont);
    ExtendedAt(start, f0.at, b.at, merge);
    ExtendedAt(start, f0.at, b.at, entry);
    ExtendedThrough(s.labels, start, f.at, f0.at, b.at);
    f1 := IfPresentFlows(n.body, s1', b, names1, Some(merge), Some(next), p2);
    LeavesLive(s1', b, s2, f1, ScopedOptional(n.body, names1).value);
    ExtendedAt(s1'.labels, b.at, f1.at, next);
    ExtendedAt(s1'.labels, b.at, f1.at, merge);
    ExtendedAt(s1'.labels, b.at, f1.at, entry);
    var e := JumpAndLabelFlows(s2, f1, next, next);
    EntersAgain(s1', b, s3, e, DefinedIn(n.body), names1, s1'.labels, brk, cont);
    f1 := LoopEndFlows(n.step, s3, e, entry, merge, names1, brk, cont, p3);
    ExtendedThrough(s.labels, s1'.labels, f.at, b.at, e.at);
    ExtendedThrough(s.labels, s3.labels, f.at, e.at, f1.at);
    LoopLeaves(n, s, f, s4, f1, names, brk, cont);
  }

  /** In front of the body of a while loop. */
  lemma BodyStartFlows(s: Assembly, f0: Flow, g: Flow, h: nat, start: nat, next: nat, merge: nat, live: set<nat>,
                       names: set<Binding>, brk: Option<nat>, cont: Option<nat>) returns (f: Flow)
    requires Enters(s, g, names, brk, cont) && Extended(h, f0.at[start := Last(g)], g.at)
    requires start !in f0.at && next !in f0.at && start < next < h <= s.labels && live <= Last(g)
    requires merge in f0.at && f0.at[merge] == live
    ensures Last(f) == Last(g) && next in f.at && f.at[next] == Last(g) && Extended(start, f0.at, f.at)
    ensures Enters(Emit(s, Label(start)), f, names, brk, cont)
    ensures Enters(Emit(s, Label(start)), f, names, Some(merge), Some(next))
  {
    hide Flows, InScope, Supported, Below;
    assert f0.at[start := Last(g)][start] == Last(g);
    f := PlaceFlows(s, g, start);
    var s1 := Emit(s, Label(start));
    LastParts(s1, f);
    AssignFlows(s1, f, next, Last(f));
    f := Assign(f, next, Last(f));
  }

  lemma {:induction false} DoWhileFlows(n: Node, s: Assembly, f: Flow, names: set<Binding>, brk: Option<nat>,
                                        cont: Option<nat>, pending: set<nat>) returns (f1: Flow)
    requires n.DoWhile? && WellFormed(n) && Valid(s, pending) && Defined(n) !! s.bindings.Keys
             && Compile(n, s, brk, cont).Success?
    requires Enters(s, f, names, brk, cont) && Scoped(n, names).Some?
    ensures LeavesNode(s, f, Compile(n, s, brk, cont), f1, Scoped(n, names))
    decreases n, 0
  {
    hide Flows, Enters, Leaves, Valid, ValidOperand;
    hide Compile, CompileGuard, CompileIfPresent, CompileLoopEnd, EmitJumpAndLabel;
    hide InScope, LocalOf, Rebound, Supported, Below, Extended;
    var entry, condition, next, merge := s.labels, s.labels + 1, s.labels + 2, s.labels + 3;
    var p1, p2, p3 := pending + {condition, next, merge}, pending + {next, merge}, pending + {merge};
    var s0, s1, s2, s3, s4, o := DoWhileParts(n, s, brk, cont, pending);
    CompileShape(n, s, brk, cont, pending);
    assert Scoped(n, names) == Some(names) && ScopedOptional(n.guard, names).Some?
           && (var names1 := ScopedOptional(n.guard, names).value;
              ScopedOptional(n.step, names1).Some? && ScopedOptional(n.body, if n.While? then names1 else names).Some?);
    var names1, live := ScopedOptional(n.guard, names).value, Last(f);
    var s3' := Emit(s3, Label(next));
    ShapeThrough(s0, s1, s2, DefinedIn(n.body), {}, p1, p2);
    LoopNew(n, s, s0, s2, s3', DefinedIn(n.body), DefinedIn(n.guard)) by {
      ShapeThrough(s2, s3, s3', DefinedIn(n.guard), {}, p2, p3);
    }
    var f0 := LoopStartFlows(s, f, names, brk, cont);
    var b := OpenFlows(s0, f0, condition, merge, names, brk, cont);
    ExtendedThrough(s.labels, condition, f.at, f0.at, b.at);
    f1 := IfPresentFlows(n.body, s0, b, names, Some(merge), Some(condition), p1);
    LeavesLive(s0, b, s1, f1, ScopedOptional(n.body, names).value);
    ExtendedAt(s0.labels, b.at, f1.at, condition);
    var e := JumpAndLabelFlows(s1, f1, condition, condition);
    EntersAgain(s0, b, s2, e, DefinedIn(n.body), names, s0.labels, brk, cont);
    ExtendedThrough(s.labels, s0.labels, f.at, b.at, e.at);
    ExtendedNot(s0.labels, b.at, e.at, next);
    ExtendedAt(s0.labels, b.at, e.at, merge);
    ExtendedAt(s0.labels, b.at, e.at, entry);
    var g := GuardFlows(n.guard, s2, e, merge, next, names, brk, cont, p2);
    var h := StepStartFlows(s3, e, g, s2.labels, s.labels, f.at, next, names1, brk, cont);
    ExtendedAt(next, e.at, h.at, merge);
    ExtendedAt(next, e.at, h.at, entry);
    f1 := LoopEndFlows(n.step, s3', h, entry, merge, names1, brk, cont, p3);
    ExtendedThrough(s.labels, s3'.labels, f.at, h.at, f1.at);
    LoopLeaves(n, s, f, s4, f1, names, brk, cont);
  }

  lemma ExtendedNot(h: nat, at: map<nat, set<nat>>, at1: map<nat, set<nat>>, l: nat)
    requires Extended(h, at, at1) && l !in at && l < h
    ensures l !in at1
  {
  }

  /** In front of the body of a do-while loop: continue and break lead to labels that need nothing more. */
  lemma OpenFlows(s: Assembly, f: Flow, condition: nat, merge: nat, names: set<Binding>, brk: Option<nat>,
                  cont: Option<nat>)
    returns (f1: Flow)
    requires Enters(s, f, names, brk, cont) && condition !in f.at && condition < s.labels
    requires merge in f.at && f.at[merge] == Last(f)
    ensures Enters(s, f1, names, brk, cont) && Enters(s, f1, names, Some(merge), Some(condition)) && Last(f1) == Last(f)
    ensures f1.at == f.at[condition := Last(f)] && Extended(condition, f.at, f1.at)
  {
    hide Flows, InScope, Supported, Below;
    LastParts(s, f);
    AssignFlows(s, f, condition, Last(f));
    f1 := Assign(f, condition, Last(f));
  }

  /** In front of the continue expression of a do-while loop. */
  lemma StepStartFlows(s: Assembly, e: Flow, g: Flow, h: nat, h0: nat, at: map<nat, set<nat>>, next: nat,
                       names: set<Binding>, brk: Option<nat>, cont: Option<nat>) returns (f: Flow)
    requires Enters(s, g, names, brk, cont) && Extended(h, e.at[next := Last(g)], g.at) && next !in e.at
    requires Extended(h0, at, e.at) && h0 <= next < h
    ensures Enters(Emit(s, Label(next)), f, names, brk, cont) && Last(f) == Last(g)
    ensures Extended(next, e.at, f.at) && Extended(h0, at, f.at)
  {
    hide Flows, InScope;
    assert e.at[next := Last(g)][next] == Last(g);
    f := PlaceFlows(s, g, next);
  }

  // Switches.

  /** Consecutive new labels are given the same. */
  lemma {:induction false} AssignRangeFlows(s: Assembly, f: Flow, first: nat, count: nat, live: set<nat>)
    returns (f1: Flow)
    requires Flows(s, f) && first + count <= s.labels && Supported(s.items, live) && Below(live, s.temporaries)
    requires forall l :: first <= l < first + count ==> l !in f.at
    ensures Flows(s, f1) && Last(f1) == Last(f)
    ensures forall l :: first <= l < first + count ==> l in f1.at && f1.at[l] == live
    ensures forall l :: l in f1.at && l !in f.at ==> first <= l < first + count
    ensures forall l :: l in f.at ==> l in f1.at && f1.at[l] == f.at[l]
    decreases count
  {
    hide Flows, Supported, Below;
    f1 := f;
    if count > 0 {
      f1 := AssignRangeFlows(s, f, first, count - 1, live);
      AssignFlows(s, f1, first + count - 1, live);
      f1 := Assign(f1, first + count - 1, live);
    }
  }

  /** The jump to one of the cases: all of them need what is live here. */
  lemma CaseJumpFlows(s: Assembly, f: Flow, o: Operand, ks: seq<Operand>) returns (f1: Flow)
    requires Flows(s, f) && LocalOf(o) <= Last(f) && o.In? && AllLive(ks, Last(f))
             && forall j :: 0 <= j < |ks| ==> ks[j].In?
    ensures Flows(EmitCaseJump(s, o, ks), f1) && Last(f1) == Last(f) && Extended(s.labels, f.at, f1.at)
    ensures forall l :: s.labels <= l <= s.labels + |ks| ==> l in f1.at && f1.at[l] == Last(f)
    ensures s.labels + |ks| + 1 !in f1.at
    ensures var s1 := EmitCaseJump(s, o, ks);
            s1.bindings == s.bindings && s1.temporaries == s.temporaries && s1.labels == s.labels + |ks| + 2
  {
    hide Flows, Supported, Below, Unused, LocalOf;
    var s0 := s.(labels := s.labels + |ks| + 2);
    LabelsBelow(s, f);
    FlowsGrown(s, s0, f);
    LastParts(s0, f);
    f1 := AssignRangeFlows(s0, f, s.labels, |ks| + 1, Last(f));
    f1 := CountExtensionFlows(s0, f1, CASE_JUMP, 2 + |ks|);
    assert (var s1 := EmitCountExtension(s0, CASE_JUMP, 2 + |ks|);
            s1.bindings == s0.bindings && s1.temporaries == s0.temporaries && s1.labels == s0.labels);
    var s1 := EmitCountExtension(s0, CASE_JUMP, 2 + |ks|);
    var os := [o] + ks + Displacements(s.labels, |ks| + 1);
    CaseOperandsLive(o, ks, s.labels, Last(f));
    f1 := EffectFlows(s1, f1, CASE_JUMP, os);
  }

  lemma CaseOperandsLive(o: Operand, ks: seq<Operand>, first: nat, live: set<nat>)
    requires LocalOf(o) <= live && o.In? && AllLive(ks, live) && forall j :: 0 <= j < |ks| ==> ks[j].In?
    ensures var os := [o] + ks + Displacements(first, |ks| + 1);
            AllLive(os, live) && forall l: nat :: To(l) in os ==> first <= l <= first + |ks|
  {
    var ls := Displacements(first, |ks| + 1);
    var os := [o] + ks + ls;
    forall j | 0 <= j < |os| ensures LocalOf(os[j]) <= live && (os[j].To? ==> first <= os[j].target <= first + |ks|) {
      if 1 <= j <= |ks| { assert os[j] == ks[j - 1]; } else if j > |ks| { assert os[j] == ls[j - 1 - |ks|]; }
    }
  }

  /** In front of the cases from `first` on. */
  ghost predicate Cases(s: Assembly, at: map<nat, set<nat>>, live: set<nat>, names: set<Binding>, first: nat,
                        count: nat, brk: Option<nat>, cont: Option<nat>) {
    && (forall l :: first <= l < first + count ==> l in at && at[l] == live)
    && InScope(s.bindings, live, names) && Offers(at, live, brk) && Offers(at, live, cont)
  }

  lemma CasesAfter(s: Assembly, at: map<nat, set<nat>>, live: set<nat>, names: set<Binding>, first: nat, count: nat,
                   brk: Option<nat>, cont: Option<nat>, s1: Assembly, at1: map<nat, set<nat>>, h: nat,
                   defined: set<Binding>)
    requires Cases(s, at, live, names, first, count, brk, cont) && count > 0 && Extended(h, at, at1)
    requires Rebound(s, s1, defined) && defined !! s.bindings.Keys
    ensures Cases(s1, at1, live, names, first + 1, count - 1, brk, cont)
  {
    ScopeStays(s, s1, defined, live, live, names);
  }

  lemma CaseEnters(s: Assembly, f: Flow, f0: Flow, live: set<nat>, names: set<Binding>, first: nat, count: nat,
                   brk: Option<nat>, cont: Option<nat>)
    requires Cases(s, f.at, live, names, first, count, brk, cont) && count > 0
    requires Flows(Emit(s, Label(first)), f0) && f0.at == f.at && Last(f0) == live
    ensures Enters(Emit(s, Label(first)), f0, names, brk, cont)
  {
    hide Flows, InScope;
  }

  lemma CaseOpen(s: Assembly, f: Flow, live: set<nat>, names: set<Binding>, first: nat, count: nat, brk: Option<nat>,
                 cont: Option<nat>)
    requires Cases(s, f.at, live, names, first, count, brk, cont) && count > 0 && live <= Last(f)
    ensures Open(f, Some(first)) && f.at[first] == live
  {
  }

  lemma {:induction false} BodiesFlows(ns: seq<Node>, s: Assembly, f: Flow, live: set<nat>, first: nat, count: nat,
                                       merge: nat, r: Operand, names: set<Binding>, brk: Option<nat>, cont: Option<nat>,
                                       pending: set<nat>)
    returns (f1: Flow)
    requires AllWellFormed(ns) && Valid(s, pending) && DefinedInAll(ns) !! s.bindings.Keys
             && LabelRange(first, |ns|) <= pending
    requires CompileBodies(ns, s, first, merge, r, brk, cont).Success? && ScopedEach(ns, names) && |ns| <= count
    requires Flows(s, f) && live <= Last(f) && Merges(s, f.at, live, r, merge)
    requires Cases(s, f.at, live, names, first, count, brk, cont)
    ensures var s1 := CompileBodies(ns, s, first, merge, r, brk, cont).value;
            && Flows(s1, f1) && live <= Last(f1) && Merges(s1, f1.at, live, r, merge) && Extended(s.labels, f.at, f1.at)
            && Cases(s1, f1.at, live, names, first + |ns|, count - |ns|, brk, cont) && Grown(s, s1)
    decreases ns, 0
  {
    hide Flows, Enters, Leaves, Valid, Compile, EmitMove, LocalOf, Scoped, Cases, Merges;
    f1 := f;
    if ns != [] {
      assert first in LabelRange(first, |ns|);
      var s0 := Emit(s, Label(first));
      PlaceShape(s, first, pending);
      CaseOpen(s, f, live, names, first, count, brk, cont);
      var f0 := PlaceFlows(s, f, first);
      CaseEnters(s, f, f0, live, names, first, count, brk, cont);
      CompileShape(ns[0], s0, brk, cont, pending - {first});
      var (s1, o) := Compile(ns[0], s0, brk, cont).value;
      f1 := NodeFlows(ns[0], s0, f0, names, brk, cont, pending - {first});
      LeavesLive(s0, f0, s1, f1, Scoped(ns[0], names).value);
      MergesGrown(s, s0, f.at, f.at, live, r, merge, s.labels);
      var f2 := MergeFlows(s0, f.at, live, s1, f1, r, o, merge);
      var s1' := EmitMove(s1, r, o);
      f2 := JumpFlows(s1', f2, merge);
      var s2 := Emit(s1', Instruction(JUMP, [To(merge)]));
      BodyShape(s, s0, s1, r, o, merge, Defined(ns[0]), pending - {first});
      MergesGrown(s, s2, f.at, f2.at, live, r, merge, s0.labels);
      CasesAfter(s, f.at, live, names, first, count, brk, cont, s2, f2.at, s0.labels, Defined(ns[0]));
      assert DefinedInAll(ns[1..]) !! s2.bindings.Keys;
      f1 := BodiesFlows(ns[1..], s2, f2, live, first + 1, count - 1, merge, r, names, brk, cont, pending - {first});
    }
  }

  lemma MergesGrown(s: Assembly, s1: Assembly, at: map<nat, set<nat>>, at1: map<nat, set<nat>>, live: set<nat>,
                    r: Operand, merge: nat, h: nat)
    requires Merges(s, at, live, r, merge) && s.temporaries <= s1.temporaries && Extended(h, at, at1)
    ensures Merges(s1, at1, live, r, merge)
  {
  }

  lemma BodyShape(s: Assembly, s0: Assembly, s1: Assembly, r: Operand, o: Operand, merge: nat, d: set<Binding>,
                  pending: set<nat>)
    requires Shape(s, s0, {}, pending) && Shape(s0, s1, d, pending)
    ensures Shape(s, Emit(EmitMove(s1, r, o), Instruction(JUMP, [To(merge)])), d, pending)
    ensures s0.labels <= Emit(EmitMove(s1, r, o), Instruction(JUMP, [To(merge)])).labels
  {
    hide Valid, Grown, Rebound, EmitMove;
    ShapeThrough(s, s0, s1, {}, d, pending, pending);
    EmitMoveShape(s1, r, o, pending);
    ShapeThrough(s, s1, EmitMove(s1, r, o), d, {}, pending, pending);
    EmitShape(EmitMove(s1, r, o), JUMP, [To(merge)], pending);
    ShapeThrough(s, EmitMove(s1, r, o), Emit(EmitMove(s1, r, o), Instruction(JUMP, [To(merge)])), d, {},
                 pending, pending);
    ShapeThrough(s1, EmitMove(s1, r, o), Emit(EmitMove(s1, r, o), Instruction(JUMP, [To(merge)])), {}, {},
                 pending, pending);
    assert s0.labels <= s1.labels by { ShapeGrown(s0, s1, d, pending); }
    ShapeGrown(s1, Emit(EmitMove(s1, r, o), Instruction(JUMP, [To(merge)])), {}, pending);
  }

  lemma ShapeGrown(s: Assembly, s1: Assembly, d: set<Binding>, pending: set<nat>)
    requires Shape(s, s1, d, pending)
    ensures s.labels <= s1.labels && s.temporaries <= s1.temporaries
  {
  }

  lemma {:induction false} DefaultFlows(n: Option<Node>, s: Assembly, f: Flow, live: set<nat>, otherwise: nat,
                                        merge: nat, r: Operand, names: set<Binding>, brk: Option<nat>,
                                        cont: Option<nat>, pending: set<nat>)
    returns (f1: Flow)
    requires OptionWellFormed(n) && Valid(s, pending) && DefinedIn(n) !! s.bindings.Keys && otherwise in pending
    requires CompileDefault(n, s, otherwise, merge, r, brk, cont).Success? && ScopedOptional(n, names).Some?
    requires Flows(s, f) && live <= Last(f) && Merges(s, f.at, live, r, merge)
    requires Cases(s, f.at, live, names, otherwise, 1, brk, cont)
    ensures Flows(CompileDefault(n, s, otherwise, merge, r, brk, cont).value, f1) && Last(f1) == live + LocalOf(r)
    ensures Extended(s.labels, f.at, f1.at)
    decreases n, 3
  {
    hide Flows, Enters, Leaves, Valid, CompileOrNull, EmitMove, LocalOf, ScopedOptional, Cases;
    var s0 := Emit(s, Label(otherwise));
    PlaceShape(s, otherwise, pending);
    CaseOpen(s, f, live, names, otherwise, 1, brk, cont);
    var f0 := PlaceFlows(s, f, otherwise);
    CaseEnters(s, f, f0, live, names, otherwise, 1, brk, cont);
    var (s1, o) := CompileOrNull(n, s0, brk, cont).value;
    f1 := OptionFlows(n, s0, f0, names, brk, cont, pending - {otherwise});
    LeavesLive(s0, f0, s1, f1, ScopedOptional(n, names).value);
    var f2 := MergeFlows(s0, f.at, live, s1, f1, r, o, merge);
    f1 := PlaceFlows(EmitMove(s1, r, o), f2, merge);
  }

  lemma SwitchScoped(n: Node, names: set<Binding>)
    requires n.Switch? && Scoped(n, names).Some?
    ensures Scoped(n.scrutinee, names).Some?
    ensures var d := ScopedAll(n.keys, Scoped(n.scrutinee, names).value);
            d.Some? && Scoped(n, names) == d && ScopedEach(n.bodies, d.value)
              && ScopedOptional(n.whenNone, d.value).Some?
  {
  }

  lemma {:induction false} SwitchFlows(n: Node, s: Assembly, f: Flow, names: set<Binding>, brk: Option<nat>,
                                       cont: Option<nat>, pending: set<nat>) returns (f1: Flow)
    requires n.Switch? && WellFormed(n) && Valid(s, pending) && Defined(n) !! s.bindings.Keys
             && Compile(n, s, brk, cont).Success?
    requires Enters(s, f, names, brk, cont) && Scoped(n, names).Some?
    ensures LeavesNode(s, f, Compile(n, s, brk, cont), f1, Scoped(n, names))
    decreases n, 0, 1
  {
    hide Flows, Enters, Valid, Compile;
    hide CompileAll, CompileBodies, CompileDefault, EmitCaseJump, NewTemporary;
    hide Scoped, ScopedAll, ScopedEach, ScopedOptional, InScope, LocalOf;
    hide Extended, Merges, Cases, LabelRange, AllLive;
    var s1, o, s2, ks, s3, r, s4, s5 := SwitchParts(n, s, brk, cont, pending);
    SwitchScoped(n, names);
    var first, merge, all := s2.labels, s2.labels + |ks| + 1, pending + LabelRange(s2.labels, |ks| + 2);
    var rest := all - LabelRange(first, |ks|);
    assert LabelRange(first, |ks|) <= pending + LabelRange(first, |ks| + 2)
           && first + |ks| in pending + LabelRange(first, |ks| + 2) - LabelRange(first, |ks|) by {
      hide LabelRange;
    }
    CompileBodiesShape(n.bodies, s3, first, merge, r, brk, cont, all);
    assert Defined(n.scrutinee) !! s.bindings.Keys && DefinedInAll(n.keys) !! s1.bindings.Keys
           && DefinedInAll(n.bodies) !! s3.bindings.Keys && DefinedIn(n.whenNone) !! s4.bindings.Keys
           && (DefinedInAll(n.bodies) + DefinedIn(n.whenNone)) !! s3.bindings.Keys;
    var d := Scoped(n, names).value;
    var f2 := KeysFlows(n, s, f, names, brk, cont, pending);
    LeavesLive(s, f, s2, f2, d);
    EntersAfter(s, f, s2, f2, names, d, brk, cont);
    var live := Last(f2);
    AllValidIn(s2, ks);
    assert o.In?;
    var f3 := CaseJumpFlows(s2, f2, o, ks);
    var f4 := MergePointFlows(EmitCaseJump(s2, o, ks), f3, n.kind, merge);
    StartCases(s2, f2, f3, s3, merge, live + LocalOf(r), d, first, |ks| + 1, brk, cont);
    assert f4.at == f3.at[merge := live + LocalOf(r)];
    var f5 := BodiesFlows(n.bodies, s3, f4, live, first, |ks| + 1, merge, r, d, brk, cont, all);
    f1 := DefaultFlows(n.whenNone, s4, f5, live, first + |ks|, merge, r, d, brk, cont, rest);
    ExtendedThrough(s.labels, s2.labels, f.at, f2.at, f3.at);
    ExtendedMore(s.labels, f.at, f3.at, merge, live + LocalOf(r));
    ExtendedThrough(s.labels, s3.labels, f.at, f4.at, f5.at);
    ExtendedThrough(s.labels, s4.labels, f.at, f5.at, f1.at);
    assert Within(s.temporaries, Last(f), Last(f1));
    ScopeStays(s3, s5, DefinedInAll(n.bodies) + DefinedIn(n.whenNone), live, Last(f1), d);
  }

  lemma AllValidIn(s: Assembly, os: seq<Operand>)
    requires AllValid(s, os)
    ensures forall j :: 0 <= j < |os| ==> os[j].In?
  {
  }

  lemma StartCases(s: Assembly, f: Flow, f1: Flow, s1: Assembly, merge: nat, atMerge: set<nat>, names: set<Binding>,
                   first: nat, count: nat, brk: Option<nat>, cont: Option<nat>)
    requires Enters(s, f, names, brk, cont) && s1.bindings == s.bindings
    requires Extended(s.labels, f.at, f1.at) && forall l :: first <= l < first + count ==>
               l in f1.at && f1.at[l] == Last(f)
    requires merge !in f1.at
    ensures Cases(s1, f1.at[merge := atMerge], Last(f), names, first, count, brk, cont)
  {
    hide Flows;
  }

  /** A switch up to its jump: the value and the keys are live. */
  lemma {:induction false} KeysFlows(n: Node, s: Assembly, f: Flow, names: set<Binding>, brk: Option<nat>,
                                     cont: Option<nat>, pending: set<nat>) returns (f2: Flow)
    requires n.Switch? && WellFormed(n) && Valid(s, pending) && Defined(n) !! s.bindings.Keys
             && Compile(n, s, brk, cont).Success?
    requires Enters(s, f, names, brk, cont) && Scoped(n, names).Some?
    ensures Compile(n.scrutinee, s, brk, cont).Success?
    ensures var (s1, o) := Compile(n.scrutinee, s, brk, cont).value;
            CompileAll(n.keys, s1, brk, cont).Success? &&
            var (s2, ks) := CompileAll(n.keys, s1, brk, cont).value;
            Leaves(s, f, s2, f2, Scoped(n, names).value) && LocalOf(o) <= Last(f2) && AllLive(ks, Last(f2))
    decreases n, 0, 0
  {
    hide Flows, Enters, Leaves, Valid, ValidOperand, Compile;
    hide CompileAll, CompileBodies, CompileDefault, EmitCaseJump, NewTemporary;
    hide Scoped, ScopedAll, ScopedEach, ScopedOptional, LocalOf, LabelRange;
    SwitchScoped(n, names);
    var s1, o, s2, ks, s3, r, s4, s5 := SwitchParts(n, s, brk, cont, pending);
    assert Defined(n.scrutinee) !! s.bindings.Keys && DefinedInAll(n.keys) !! s1.bindings.Keys
           && WellFormed(n.scrutinee) && AllWellFormed(n.keys);
    var names1 := Scoped(n.scrutinee, names).value;
    var f1 := NodeFlows(n.scrutinee, s, f, names, brk, cont, pending);
    EntersAfter(s, f, s1, f1, names, names1, brk, cont);
    f2 := AllFlows(n.keys, s1, f1, names1, brk, cont, pending);
    LeavesThrough(s, f, s1, f1, s2, f2, names1, Scoped(n, names).value);
    LeavesLive(s1, f1, s2, f2, Scoped(n, names).value);
  }
}
