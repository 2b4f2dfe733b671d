/** The analysed syntax tree that the direct compiler receives, and what it means. */
module SyntaxTree {
  import opened Values
  import opened Instructions
  import opened ListMachine

  type Binding = nat

  /** The part of an analysed type that decides what a fresh temporary is. */
  datatype TypeKind = VoidKind | UndefinedKind | EscapeKind | ValueKind

  datatype Node =
    | Literal(value: Value)
    | Reference(binding: Binding)
    | Sequence(expressions: seq<Node>)
    | Variable(name: Binding, isMutable: bool, pointerType: Value, symbol: Value, initial: Option<Node>, isNamed: bool)
    | Operation(opcode: Opcode, parts: seq<Node>, kind: TypeKind)
    | If(condition: Node, whenTrue: Option<Node>, whenFalse: Option<Node>, kind: TypeKind)
    | Switch(scrutinee: Node, keys: seq<Node>, bodies: seq<Node>, whenNone: Option<Node>, kind: TypeKind)
    | While(guard: Option<Node>, body: Option<Node>, step: Option<Node>)
    | DoWhile(guard: Option<Node>, body: Option<Node>, step: Option<Node>)
    | Break
    | Continue
    | Return(expression: Node)

  /** Operations a node may stand for: straight-line instructions the compiler emits. */
  predicate IsOperation(op: Opcode) {
    match op
    case NOP | BREAKPOINT | UNREACHABLE | RETURN | JUMP | COUNT_EXTENSION | MOVE => false
    case JUMP_IF_TRUE | JUMP_IF_FALSE | CASE_JUMP | SET_DEBUG_VALUE | ALLOCA_WITH_VALUE => false
    case _ => true
  }

  type Scope = map<Binding, Value>

  datatype Outcome =
    | Normal(value: Value, scope: Scope, heap: Heap, tape: Tape)
    | Broke(heap: Heap, tape: Tape)
    | Continued(heap: Heap, tape: Tape)
    | Left(value: Value, heap: Heap, tape: Tape)
    | Faulted
    | Unbound       // the tree mentions a binding outside of its scope
    | TimedOut

  datatype Outcomes =
    | Values(values: seq<Value>, scope: Scope, heap: Heap, tape: Tape)
    | Abrupt(outcome: Outcome)

  /** Instructions list the selector before the receiver, but the receiver is evaluated first. */
  function Arrange<T>(op: Opcode, xs: seq<T>): (ys: seq<T>)
    ensures |ys| == |xs|
  {
    if op.SEND? && |xs| >= 2 then [xs[1], xs[0]] + xs[2..]
    else if op.SEND_WITH_LOOKUP? && |xs| >= 3 then [xs[1], xs[2], xs[0]] + xs[3..]
    else xs
  }

  /** A temporary of void or undefined type is not a local but the constant. */
  function Constant(kind: TypeKind): Option<Value> {
    match kind
    case VoidKind => Some(Void)
    case UndefinedKind => Some(Null)
    case _ => None
  }

  function OfKind(kind: TypeKind, value: Value): Value {
    if Constant(kind).Some? then Constant(kind).value else value
  }

  /** The value and memory after an operation whose parts have the values xs. */
  function Finish(rt: Runtime, op: Opcode, kind: TypeKind, xs: seq<Value>, heap: Heap, tape: Tape): Result {
    var wantsResult := DestinationCount(op) == 1 && !(IsCall(op) && kind.VoidKind?);
    if wantsResult && Constant(kind).Some? then Error     // the destination would be a constant
    else
      match Primitive(rt, op, Arrange(op, xs), heap, tape)
      case Error => Error
      case Done(v, h, t) =>
        if IsCall(op) && kind.EscapeKind? then Error        // code after the call is unreachable
        else if op.STORE? then (if |xs| > 0 then Done(xs[0], h, t) else Error)
        else if wantsResult then Done(v, h, t)
        else Done(Void, h, t)
  }

  /** Structured evaluation; fuel bounds the number of loop iterations. */
  function Eval(rt: Runtime, fuel: nat, n: Node, scope: Scope, heap: Heap, tape: Tape): Outcome
    decreases fuel, n, 1
  {
    match n
    case Literal(v) => Normal(v, scope, heap, tape)
    case Reference(b) => if b in scope then Normal(scope[b], scope, heap, tape) else Unbound
    case Sequence(es) =>
      (match EvalAll(rt, fuel, es, scope, heap, tape)
       case Values(vs, sc, h, t) => Normal(if |vs| == 0 then Void else vs[|vs| - 1], sc, h, t)
       case Abrupt(o) => o)
    case Variable(b, isMutable, pointerType, _, initial, _) =>
      (match EvalOptional(rt, fuel, initial, scope, heap, tape)
       case Normal(v, sc, h, t) =>
         if !isMutable then Normal(v, sc[b := v], h, t)
         else
           (match Primitive(rt, ALLOCA_WITH_VALUE, [pointerType, v], h, t)
            case Done(box, h2, t2) => Normal(box, sc[b := box], h2, t2)
            case Error => Faulted)
       case o => o)
    case Operation(op, parts, kind) =>
      (match EvalAll(rt, fuel, parts, scope, heap, tape)
       case Values(vs, sc, h, t) =>
         (match Finish(rt, op, kind, vs, h, t)
          case Done(v, h2, t2) => Normal(v, sc, h2, t2)
          case Error => Faulted)
       case Abrupt(o) => o)
    case If(c, a, b, kind) =>
      (match Eval(rt, fuel, c, scope, heap, tape)
       case Normal(v, sc, h, t) =>
         Branch(kind, sc, EvalOptional(rt, fuel, if v == Boolean(true) then a else b, sc, h, t))
       case o => o)
    case Switch(x, keys, bodies, whenNone, kind) =>
      (match Eval(rt, fuel, x, scope, heap, tape)
       case Normal(v, sc, h, t) =>
         (match EvalAll(rt, fuel, keys, sc, h, t)
          case Values(ks, sc2, h2, t2) =>
            var i := FirstMatch(rt, v, ks);
            if i < |bodies| && i < |ks|
            then Branch(kind, sc2, Eval(rt, fuel, bodies[i], sc2, h2, t2))
            else Branch(kind, sc2, EvalOptional(rt, fuel, whenNone, sc2, h2, t2))
          case Abrupt(o) => o)
       case o => o)
    case While(_, _, _) =>
      if fuel == 0 then TimedOut else
      (match EvalGuard(rt, fuel, n.guard, scope, heap, tape)
       case Normal(go, sc, h, t) =>
         if go != Boolean(true) then Normal(Void, scope, h, t)
         else
           (match LoopBody(EvalOptional(rt, fuel, n.body, sc, h, t))
            case Normal(_, _, h2, t2) => EvalNext(rt, fuel, n, scope, sc, h2, t2)
            case Broke(h2, t2) => Normal(Void, scope, h2, t2)
            case o => o)
       case o => o)
    case DoWhile(_, _, _) =>
      if fuel == 0 then TimedOut else
      (match LoopBody(EvalOptional(rt, fuel, n.body, scope, heap, tape))
       case Normal(_, _, h, t) =>
         (match EvalGuard(rt, fuel, n.guard, scope, h, t)
          case Normal(go, sc, h2, t2) =>
            if go != Boolean(true) then Normal(Void, scope, h2, t2) else EvalNext(rt, fuel, n, scope, sc, h2, t2)
          case o => o)
       case Broke(h, t) => Normal(Void, scope, h, t)
       case o => o)
    case Break => Broke(heap, tape)
    case Continue => Continued(heap, tape)
    case Return(e) =>
      (match Eval(rt, fuel, e, scope, heap, tape)
       case Normal(v, sc, h, t) => Left(v, h, t)
       case o => o)
  }

  /** The continue expression of a loop, and the remaining iterations in the scope outside of the loop. */
  function EvalNext(rt: Runtime, fuel: nat, n: Node, scope: Scope, sc: Scope, heap: Heap, tape: Tape): Outcome
    requires fuel > 0 && (n.While? || n.DoWhile?)
    decreases fuel, n, 0
  {
    match EvalOptional(rt, fuel, n.step, sc, heap, tape)
    case Normal(_, _, h, t) => Eval(rt, fuel - 1, n, scope, h, t)
    case o => o
  }

  /** A missing expression is the null literal. */
  function EvalOptional(rt: Runtime, fuel: nat, n: Option<Node>, scope: Scope, heap: Heap, tape: Tape): Outcome
    decreases fuel, n, 2
  {
    if n.Some? then Eval(rt, fuel, n.value, scope, heap, tape) else Normal(Null, scope, heap, tape)
  }

  /** A missing loop condition is true. */
  function EvalGuard(rt: Runtime, fuel: nat, n: Option<Node>, scope: Scope, heap: Heap, tape: Tape): Outcome
    decreases fuel, n, 2
  {
    if n.Some? then Eval(rt, fuel, n.value, scope, heap, tape) else Normal(Boolean(true), scope, heap, tape)
  }

  function EvalAll(rt: Runtime, fuel: nat, ns: seq<Node>, scope: Scope, heap: Heap, tape: Tape): Outcomes
    decreases fuel, ns, 0
  {
    if ns == [] then Values([], scope, heap, tape)
    else
      match Eval(rt, fuel, ns[0], scope, heap, tape)
      case Normal(v, sc, h, t) =>
        (match EvalAll(rt, fuel, ns[1..], sc, h, t)
         case Values(vs, sc2, h2, t2) => Values([v] + vs, sc2, h2, t2)
         case Abrupt(o) => Abrupt(o))
      case o => Abrupt(o)
  }

  /** A branch yields its value, but what it defines goes out of scope. */
  function Branch(kind: TypeKind, scope: Scope, o: Outcome): Outcome {
    if o.Normal? then Normal(OfKind(kind, o.value), scope, o.heap, o.tape) else o
  }

  /** A body that continues has completed this iteration. */
  function LoopBody(o: Outcome): Outcome {
    if o.Continued? then Normal(Void, map[], o.heap, o.tape) else o
  }

  /** Bindings defined anywhere in a tree. */
  function Defined(n: Node): set<Binding>
    decreases n, 1
  {
    match n
    case Literal(_) => {}
    case Reference(_) => {}
    case Sequence(es) => DefinedInAll(es)
    case Variable(b, _, _, _, initial, _) => {b} + DefinedIn(initial)
    case Operation(_, parts, _) => DefinedInAll(parts)
    case If(c, a, b, _) => Defined(c) + DefinedIn(a) + DefinedIn(b)
    case Switch(x, keys, bodies, whenNone, _) =>
      Defined(x) + DefinedInAll(keys) + DefinedInAll(bodies) + DefinedIn(whenNone)
    case While(g, b, s) => DefinedIn(g) + DefinedIn(b) + DefinedIn(s)
    case DoWhile(g, b, s) => DefinedIn(g) + DefinedIn(b) + DefinedIn(s)
    case Break => {}
    case Continue => {}
    case Return(e) => Defined(e)
  }

  function DefinedIn(n: Option<Node>): set<Binding>
    decreases n, 2
  {
    if n.Some? then Defined(n.value) else {}
  }

  function DefinedInAll(ns: seq<Node>): set<Binding>
    decreases ns, 0
  {
    if ns == [] then {} else Defined(ns[0]) + DefinedInAll(ns[1..])
  }

  /** Bindings are defined once, and stores have a pointer. */
  predicate WellFormed(n: Node)
    decreases n, 1
  {
    match n
    case Literal(_) => true
    case Reference(_) => true
    case Sequence(es) => AllWellFormed(es)
    case Variable(b, _, _, _, initial, _) => b !in DefinedIn(initial) && OptionWellFormed(initial)
    case Operation(op, parts, _) => IsOperation(op) && (op.STORE? ==> |parts| > 0) && AllWellFormed(parts)
    case If(c, a, b, _) =>
      && WellFormed(c) && OptionWellFormed(a) && OptionWellFormed(b)
      && Defined(c) !! DefinedIn(a) && Defined(c) !! DefinedIn(b) && DefinedIn(a) !! DefinedIn(b)
    case Switch(x, keys, bodies, whenNone, _) =>
      && |keys| == |bodies|
      && WellFormed(x) && AllWellFormed(keys) && AllWellFormed(bodies) && OptionWellFormed(whenNone)
      && Defined(x) !! DefinedInAll(keys)
      && (Defined(x) + DefinedInAll(keys)) !! DefinedInAll(bodies)
      && (Defined(x) + DefinedInAll(keys) + DefinedInAll(bodies)) !! DefinedIn(whenNone)
    case While(_, _, _) | DoWhile(_, _, _) =>
      && OptionWellFormed(n.guard) && OptionWellFormed(n.body) && OptionWellFormed(n.step)
      && DefinedIn(n.guard) !! DefinedIn(n.body)
      && (DefinedIn(n.guard) + DefinedIn(n.body)) !! DefinedIn(n.step)
    case Break => true
    case Continue => true
    case Return(e) => WellFormed(e)
  }

  predicate OptionWellFormed(n: Option<Node>)
    decreases n, 2
  {
    n.Some? ==> WellFormed(n.value)
  }

  predicate AllWellFormed(ns: seq<Node>)
    decreases ns, 0
  {
    ns == [] || (WellFormed(ns[0]) && AllWellFormed(ns[1..]) && Defined(ns[0]) !! DefinedInAll(ns[1..]))
  }

  /** The bindings in scope behind a tree, or none when the tree mentions a binding out of scope. */
  function Scoped(n: Node, b: set<Binding>): Option<set<Binding>>
    decreases n, 1
  {
    match n
    case Literal(_) => Some(b)
    case Reference(x) => if x in b then Some(b) else None
    case Sequence(es) => ScopedAll(es, b)
    case Variable(x, _, _, _, initial, _) =>
      (match ScopedOptional(initial, b) case Some(c) => Some(c + {x}) case None => None)
    case Operation(_, parts, _) => ScopedAll(parts, b)
    case If(c, t, f, _) =>
      (match Scoped(c, b)
       case Some(d) => if ScopedOptional(t, d).Some? && ScopedOptional(f, d).Some? then Some(d) else None
       case None => None)
    case Switch(x, keys, bodies, whenNone, _) =>
      (match Scoped(x, b)
       case Some(c) =>
         (match ScopedAll(keys, c)
          case Some(d) => if ScopedEach(bodies, d) && ScopedOptional(whenNone, d).Some? then Some(d) else None
          case None => None)
       case None => None)
    case While(g, body, s) =>
      (match ScopedOptional(g, b)
       case Some(c) => if ScopedOptional(body, c).Some? && ScopedOptional(s, c).Some? then Some(b) else None
       case None => None)
    case DoWhile(g, body, s) =>
      (match ScopedOptional(g, b)
       case Some(c) => if ScopedOptional(body, b).Some? && ScopedOptional(s, c).Some? then Some(b) else None
       case None => None)
    case Break => Some(b)
    case Continue => Some(b)
    case Return(e) => Scoped(e, b)
  }

  function ScopedOptional(n: Option<Node>, b: set<Binding>): Option<set<Binding>>
    decreases n, 2
  {
    if n.Some? then Scoped(n.value, b) else Some(b)
  }

  function ScopedAll(ns: seq<Node>, b: set<Binding>): Option<set<Binding>>
    decreases ns, 0
  {
    if ns == [] then Some(b)
    else
      match Scoped(ns[0], b)
      case Some(c) => ScopedAll(ns[1..], c)
      case None => None
  }

  predicate ScopedEach(ns: seq<Node>, b: set<Binding>)
    decreases ns, 0
  {
    ns == [] || (Scoped(ns[0], b).Some? && ScopedEach(ns[1..], b))
  }

  lemma ScopedAt(ns: seq<Node>, b: set<Binding>, i: nat)
    requires ScopedEach(ns, b) && i < |ns|
    ensures Scoped(ns[i], b).Some?
  {
    if i > 0 { ScopedAt(ns[1..], b, i - 1); }
  }

  /** Evaluation stays in scope: it is never unbound and ends with exactly the expected bindings. */
  ghost predicate StaysScoped(out: Outcome, expected: Option<set<Binding>>) {
    expected.Some? && !out.Unbound? && (out.Normal? ==> out.scope.Keys == expected.value)
  }

  /** A tree whose references are in scope never evaluates to Unbound, and ends with exactly the expected scope. */
  lemma {:induction false} EvalScoped(rt: Runtime, fuel: nat, n: Node, scope: Scope, heap: Heap, tape: Tape)
    requires Scoped(n, scope.Keys).Some?
    ensures StaysScoped(Eval(rt, fuel, n, scope, heap, tape), Scoped(n, scope.Keys))
    decreases fuel, n, 1
  {
    hide Primitive, Finish, FirstMatch, EvalNext, LoopBody;
    match n
    case Literal(_) =>
    case Reference(_) =>
    case Sequence(es) => EvalAllScoped(rt, fuel, es, scope, heap, tape);
    case Variable(_, _, _, _, initial, _) => EvalOptionalScoped(rt, fuel, initial, scope, heap, tape);
    case Operation(_, parts, _) => EvalAllScoped(rt, fuel, parts, scope, heap, tape);
    case If(c, a, b, _) =>
      EvalScoped(rt, fuel, c, scope, heap, tape);
      var out := Eval(rt, fuel, c, scope, heap, tape);
      if out.Normal? {
        EvalOptionalScoped(rt, fuel, if out.value == Boolean(true) then a else b, out.scope, out.heap, out.tape);
      }
    case Switch(_, _, _, _, _) => EvalSwitchScoped(rt, fuel, n, scope, heap, tape);
    case While(_, _, _) => EvalWhileScoped(rt, fuel, n, scope, heap, tape);
    case DoWhile(_, _, _) => EvalDoWhileScoped(rt, fuel, n, scope, heap, tape);
    case Break =>
    case Continue =>
    case Return(e) => EvalScoped(rt, fuel, e, scope, heap, tape);
  }

  lemma {:induction false} EvalSwitchScoped(rt: Runtime, fuel: nat, n: Node, scope: Scope, heap: Heap, tape: Tape)
    requires n.Switch? && Scoped(n, scope.Keys).Some?
    ensures StaysScoped(Eval(rt, fuel, n, scope, heap, tape), Scoped(n, scope.Keys))
    decreases fuel, n, 0
  {
    hide FirstMatch, EvalOptional, EvalAll, ScopedAll, ScopedEach;
    EvalScoped(rt, fuel, n.scrutinee, scope, heap, tape);
    var out := Eval(rt, fuel, n.scrutinee, scope, heap, tape);
    if out.Normal? {
      EvalAllScoped(rt, fuel, n.keys, out.scope, out.heap, out.tape);
      var outs := EvalAll(rt, fuel, n.keys, out.scope, out.heap, out.tape);
      if outs.Values? {
        var i := FirstMatch(rt, out.value, outs.values);
        if i < |n.bodies| {
          ScopedAt(n.bodies, outs.scope.Keys, i);
          EvalScoped(rt, fuel, n.bodies[i], outs.scope, outs.heap, outs.tape);
        }
        EvalOptionalScoped(rt, fuel, n.whenNone, outs.scope, outs.heap, outs.tape);
      }
    }
  }

  lemma {:induction false} EvalWhileScoped(rt: Runtime, fuel: nat, n: Node, scope: Scope, heap: Heap, tape: Tape)
    requires n.While? && Scoped(n, scope.Keys).Some?
    ensures StaysScoped(Eval(rt, fuel, n, scope, heap, tape), Scoped(n, scope.Keys))
    decreases fuel, n, 0, 1
  {
    if fuel > 0 {
      assert StaysScoped(EvalGuard(rt, fuel, n.guard, scope, heap, tape), ScopedOptional(n.guard, scope.Keys)) by {
        if n.guard.Some? { EvalScoped(rt, fuel, n.guard.value, scope, heap, tape); }
      }
      var out := EvalGuard(rt, fuel, n.guard, scope, heap, tape);
      if out.Normal? && out.value == Boolean(true) {
        EvalOptionalScoped(rt, fuel, n.body, out.scope, out.heap, out.tape);
        var done := LoopBody(EvalOptional(rt, fuel, n.body, out.scope, out.heap, out.tape));
        if done.Normal? {
          assert StaysScoped(EvalNext(rt, fuel, n, scope, out.scope, done.heap, done.tape), Scoped(n, scope.Keys)) by {
            EvalOptionalScoped(rt, fuel, n.step, out.scope, done.heap, done.tape);
            var out' := EvalOptional(rt, fuel, n.step, out.scope, done.heap, done.tape);
            if out'.Normal? { EvalScoped(rt, fuel - 1, n, scope, out'.heap, out'.tape); }
          }
        }
      }
    }
  }

  lemma {:induction false} EvalDoWhileScoped(rt: Runtime, fuel: nat, n: Node, scope: Scope, heap: Heap, tape: Tape)
    requires n.DoWhile? && Scoped(n, scope.Keys).Some?
    ensures StaysScoped(Eval(rt, fuel, n, scope, heap, tape), Scoped(n, scope.Keys))
    decreases fuel, n, 0, 1
  {
    if fuel > 0 {
      EvalOptionalScoped(rt, fuel, n.body, scope, heap, tape);
      var done := LoopBody(EvalOptional(rt, fuel, n.body, scope, heap, tape));
      if done.Normal? {
        assert StaysScoped(EvalGuard(rt, fuel, n.guard, scope, done.heap, done.tape),
                           ScopedOptional(n.guard, scope.Keys)) by {
          if n.guard.Some? { EvalScoped(rt, fuel, n.guard.value, scope, done.heap, done.tape); }
        }
        var out := EvalGuard(rt, fuel, n.guard, scope, done.heap, done.tape);
        if out.Normal? && out.value == Boolean(true) {
          assert StaysScoped(EvalNext(rt, fuel, n, scope, out.scope, out.heap, out.tape), Scoped(n, scope.Keys)) by {
            EvalOptionalScoped(rt, fuel, n.step, out.scope, out.heap, out.tape);
            var out' := EvalOptional(rt, fuel, n.step, out.scope, out.heap, out.tape);
            if out'.Normal? { EvalScoped(rt, fuel - 1, n, scope, out'.heap, out'.tape); }
          }
        }
      }
    }
  }

  lemma {:induction false} EvalOptionalScoped(rt: Runtime, fuel: nat, n: Option<Node>, scope: Scope, heap: Heap,
                                              tape: Tape)
    requires ScopedOptional(n, scope.Keys).Some?
    ensures StaysScoped(EvalOptional(rt, fuel, n, scope, heap, tape), ScopedOptional(n, scope.Keys))
    decreases fuel, n, 2
  {
    if n.Some? { EvalScoped(rt, fuel, n.value, scope, heap, tape); }
  }

  lemma {:induction false} EvalAllScoped(rt: Runtime, fuel: nat, ns: seq<Node>, scope: Scope, heap: Heap, tape: Tape)
    requires ScopedAll(ns, scope.Keys).Some?
    ensures var out := EvalAll(rt, fuel, ns, scope, heap, tape);
            && (out.Abrupt? ==> !out.outcome.Unbound? && !out.outcome.Normal?)
            && (out.Values? ==> out.scope.Keys == ScopedAll(ns, scope.Keys).value)
    decreases fuel, ns, 0
  {
    if ns != [] {
      EvalScoped(rt, fuel, ns[0], scope, heap, tape);
      var out := Eval(rt, fuel, ns[0], scope, heap, tape);
      if out.Normal? { EvalAllScoped(rt, fuel, ns[1..], out.scope, out.heap, out.tape); }
    }
  }
}
