/** Removing instructions that only fall through does not change what a program does. */
module Removal {
  import opened Values
  import opened Instructions
  import opened ListMachine

  /** The items whose flag is set, in order. */
  function Filter(items: seq<Item>, keep: seq<bool>): (r: seq<Item>)
    requires |keep| == |items|
    ensures |r| == Index(keep, |items|)
  {
    if items == [] then []
    else
      var last := |items| - 1;
      assert keep[..last][..last] == keep[..last];
      IndexPrefix(keep, last, last);
      Filter(items[..last], keep[..last]) + if keep[last] then [items[last]] else []
  }

  /** How many items before i are kept: where item i ends up. */
  function Index(keep: seq<bool>, i: nat): (k: nat)
    requires i <= |keep|
    ensures k <= i
  {
    if i == 0 then 0 else Index(keep, i - 1) + if keep[i - 1] then 1 else 0
  }

  lemma {:induction false} IndexPrefix(keep: seq<bool>, n: nat, i: nat)
    requires i <= n <= |keep|
    ensures Index(keep[..n], i) == Index(keep, i)
  {
    if i > 0 { IndexPrefix(keep, n, i - 1); }
  }

  lemma {:induction false} IndexGrows(keep: seq<bool>, i: nat, j: nat)
    requires i <= j <= |keep|
    ensures Index(keep, i) <= Index(keep, j)
  {
    if i < j { IndexGrows(keep, i, j - 1); }
  }

  lemma {:induction false} FilterAt(items: seq<Item>, keep: seq<bool>, i: nat)
    requires |keep| == |items| && i < |items| && keep[i]
    ensures Index(keep, i) < |Filter(items, keep)| && Filter(items, keep)[Index(keep, i)] == items[i]
  {
    var last := |items| - 1;
    IndexPrefix(keep, last, last);
    if i < last {
      IndexPrefix(keep, last, i);
      FilterAt(items[..last], keep[..last], i);
    }
  }

  /** Every filtered item comes from a kept one. */
  lemma {:induction false} FilterFrom(items: seq<Item>, keep: seq<bool>, k: nat) returns (i: nat)
    requires |keep| == |items| && k < |Filter(items, keep)|
    ensures i < |items| && keep[i] && Index(keep, i) == k && Filter(items, keep)[k] == items[i]
  {
    var last := |items| - 1;
    IndexPrefix(keep, last, last);
    if k < Index(keep, last) {
      i := FilterFrom(items[..last], keep[..last], k);
      IndexPrefix(keep, last, i);
    } else {
      i := last;
    }
  }

  lemma {:induction false} FilterAll(items: seq<Item>, keep: seq<bool>)
    requires |keep| == |items| && forall i :: 0 <= i < |items| ==> keep[i]
    ensures Filter(items, keep) == items
  {
    if items != [] {
      var last := |items| - 1;
      FilterAll(items[..last], keep[..last]);
      assert items == items[..last] + [items[last]];
    }
  }

  ghost predicate KeepsLabels(items: seq<Item>, keep: seq<bool>) {
    |keep| == |items| && forall i :: 0 <= i < |items| && items[i].Label? ==> keep[i]
  }

  /** Labels move along with the items around them. */
  lemma PositionFiltered(items: seq<Item>, keep: seq<bool>, id: nat)
    requires KeepsLabels(items, keep)
    ensures Position(Filter(items, keep), id) == Index(keep, Position(items, id))
    ensures Position(items, id) < |items| <==> Position(Filter(items, keep), id) < |Filter(items, keep)|
  {
    var at, to := Position(items, id), Position(Filter(items, keep), id);
    if at < |items| {
      FilterAt(items, keep, at);
      if to < Index(keep, at) {
        var i := FilterFrom(items, keep, to);
        if i >= at { IndexGrows(keep, at, i); }
      }
    } else if to < |Filter(items, keep)| {
      var i := FilterFrom(items, keep, to);
    }
  }

  /** The program without the dropped items, and the machine at the corresponding point. */
  function Thin(p: Program, keep: seq<bool>): Program
    requires |keep| == |p.items|
  {
    p.(items := Filter(p.items, keep))
  }

  function Moved(m: Machine, keep: seq<bool>): Machine
    requires m.pc <= |keep|
  {
    m.(pc := Index(keep, m.pc))
  }

  /** A dropped item only moves on, on every machine with this number of locals. */
  ghost predicate Idle(p: Program, i: nat, localCount: nat) {
    forall m: Machine :: m.pc == i && |m.locals| == localCount ==> Step(p, m) == Running(m.(pc := i + 1))
  }

  ghost predicate DropsIdle(p: Program, keep: seq<bool>, localCount: nat) {
    KeepsLabels(p.items, keep) && forall i :: 0 <= i < |keep| && !keep[i] ==> Idle(p, i, localCount)
  }

  lemma StepKeepsLocals(p: Program, m: Machine)
    requires Step(p, m).Running?
    ensures |Step(p, m).machine.locals| == |m.locals| && Step(p, m).machine.pc <= |p.items|
  {
    hide Execute;
  }

  function MovedStatus(s: Status, keep: seq<bool>): Status
    requires s.Running? ==> s.machine.pc <= |keep|
  {
    if s.Running? then Running(Moved(s.machine, keep)) else s
  }

  lemma StepKept(p: Program, keep: seq<bool>, m: Machine)
    requires KeepsLabels(p.items, keep) && m.pc < |p.items| && keep[m.pc]
    ensures Step(p, m).Running? ==> Step(p, m).machine.pc <= |keep|
    ensures Step(Thin(p, keep), Moved(m, keep)) == MovedStatus(Step(p, m), keep)
  {
    hide Execute, Filter;
    var q, m2 := Thin(p, keep), Moved(m, keep);
    FilterAt(p.items, keep, m.pc);
    match p.items[m.pc]
    case Label(_) =>
    case Instruction(op, os) =>
      if !op.COUNT_EXTENSION? && WellShaped(op, os, |m.locals|) {
        var sources := Sources(op, os);
        assert AllReadable(q, sources, m2.locals) == AllReadable(p, sources, m.locals);
        assert ReadAll(q, sources, m2.locals) == ReadAll(p, sources, m.locals);
        hide AllReadable, ReadAll, WellShaped;
        var effect := Execute(p.runtime, op, ReadAll(p, Sources(op, os), m.locals), m.heap, m.tape);
        if effect.Goto? { TargetFiltered(p, keep, op, os, effect.target); }
      }
  }

  lemma TargetFiltered(p: Program, keep: seq<bool>, op: Opcode, os: seq<Operand>, chosen: nat)
    requires KeepsLabels(p.items, keep) && OffsetCount(op, |os|) <= |os|
    ensures var t := Target(p, op, os, chosen);
            && (t.Some? ==> t.value <= |keep|)
            && Target(Thin(p, keep), op, os, chosen) == if t.Some? then Some(Index(keep, t.value)) else None
  {
    hide Filter, Index, Position;
    var at := |os| - OffsetCount(op, |os|) + chosen;
    if at < |os| && os[at].To? { PositionFiltered(p.items, keep, os[at].target); }
  }

  /** Two running machines that halt alike, for every way of halting. */
  ghost predicate Alike(p: Program, m: Machine, q: Program, m2: Machine) {
    forall r: Status :: !r.Running? ==> (Leads(p, m, r) <==> Leads(q, m2, r))
  }

  lemma {:induction false} ThinFollows(p: Program, keep: seq<bool>, m: Machine, n: nat)
    requires DropsIdle(p, keep, |m.locals|) && m.pc <= |p.items| && !Iterate(p, m, n).Running?
    ensures Leads(Thin(p, keep), Moved(m, keep), Iterate(p, m, n))
    decreases n
  {
    hide Step, Filter;
    var q, m2 := Thin(p, keep), Moved(m, keep);
    if m.pc == |p.items| {
      StepOutside(p, m);
      StepOutside(q, m2);
      LeadsByStep(q, m2);
    } else if keep[m.pc] {
      StepKept(p, keep, m);
      LeadsByStep(q, m2);
      if Step(p, m).Running? {
        StepKeepsLocals(p, m);
        ThinFollows(p, keep, Step(p, m).machine, n - 1);
        LeadsStepThen(q, m2, Iterate(p, m, n));
      }
    } else {
      assert Step(p, m) == Running(m.(pc := m.pc + 1));
      ThinFollows(p, keep, Step(p, m).machine, n - 1);
    }
  }

  lemma StepOutside(p: Program, m: Machine)
    requires m.pc >= |p.items|
    ensures Step(p, m) == Failed
  {
  }

  lemma {:induction false} ThinPrecedes(p: Program, keep: seq<bool>, m: Machine, n: nat)
    requires DropsIdle(p, keep, |m.locals|) && m.pc <= |p.items|
    requires !Iterate(Thin(p, keep), Moved(m, keep), n).Running?
    ensures Leads(p, m, Iterate(Thin(p, keep), Moved(m, keep), n))
    decreases n, |p.items| - m.pc
  {
    hide Step, Filter;
    var q, m2 := Thin(p, keep), Moved(m, keep);
    var r := Iterate(q, m2, n);
    if m.pc == |p.items| {
      StepOutside(p, m);
      StepOutside(q, m2);
      LeadsByStep(p, m);
    } else if keep[m.pc] {
      StepKept(p, keep, m);
      LeadsByStep(p, m);
      if Step(p, m).Running? {
        StepKeepsLocals(p, m);
        ThinPrecedes(p, keep, Step(p, m).machine, n - 1);
        LeadsStepThen(p, m, r);
      }
    } else {
      assert Step(p, m) == Running(m.(pc := m.pc + 1));
      ThinPrecedes(p, keep, Step(p, m).machine, n);
      LeadsStepThen(p, m, r);
    }
  }

  /** Dropping idle items changes no halting run, in either direction. */
  lemma ThinAlike(p: Program, keep: seq<bool>, m: Machine)
    requires DropsIdle(p, keep, |m.locals|) && m.pc <= |p.items|
    ensures Alike(p, m, Thin(p, keep), Moved(m, keep))
  {
    var q, m2 := Thin(p, keep), Moved(m, keep);
    forall r: Status | !r.Running? && Leads(p, m, r) ensures Leads(q, m2, r) {
      var n: nat :| Iterate(p, m, n) == r;
      ThinFollows(p, keep, m, n);
    }
    forall r: Status | !r.Running? && Leads(q, m2, r) ensures Leads(p, m, r) {
      var n: nat :| Iterate(q, m2, n) == r;
      ThinPrecedes(p, keep, m, n);
    }
  }

  /** Machines that halt alike also run for ever alike. */
  lemma AlikeForEver(p: Program, m: Machine, q: Program, m2: Machine)
    requires Alike(p, m, q, m2)
    ensures (forall n: nat :: Survives(p, m, n)) <==> (forall n: nat :: Survives(q, m2, n))
  {
    if n: nat :| !Survives(p, m, n) {
      assert Leads(q, m2, Iterate(p, m, n));
      var k: nat :| Iterate(q, m2, k) == Iterate(p, m, n);
      assert !Survives(q, m2, k);
    }
    if n: nat :| !Survives(q, m2, n) {
      assert Leads(p, m, Iterate(q, m2, n));
      var k: nat :| Iterate(p, m, k) == Iterate(q, m2, n);
      assert !Survives(p, m, k);
    }
  }

  // Jumps to the next instruction.

  /** A jump whose last operand is the label right behind it. */
  predicate JumpsToNext(items: seq<Item>, i: nat)
    requires i < |items|
  {
    && items[i].Instruction? && IsJump(items[i].opcode)
    && |items[i].operands| > 0 && i + 1 < |items|
    && items[i + 1].Label?
    && items[i].operands[|items[i].operands| - 1] == To(items[i + 1].id)
  }

  function KeepJumps(items: seq<Item>): (keep: seq<bool>)
    ensures |keep| == |items|
    ensures forall i :: 0 <= i < |items| ==> keep[i] == !JumpsToNext(items, i)
  {
    seq(|items|, i requires 0 <= i < |items| => !JumpsToNext(items, i))
  }

  function OptimizeJumps(items: seq<Item>): seq<Item> {
    Filter(items, KeepJumps(items))
  }

  /** Jumps have a readable condition, or none when unconditional. */
  predicate JumpsShaped(p: Program, localCount: nat) {
    forall i :: 0 <= i < |p.items| && p.items[i].Instruction? && IsJump(p.items[i].opcode) ==>
      && |p.items[i].operands| == (if p.items[i].opcode.JUMP? then 1 else 2)
      && (p.items[i].opcode.JUMP? || InVector(p, p.items[i].operands[0], localCount))
  }

  /** An operand that is readable whatever the locals hold. */
  predicate InVector(p: Program, o: Operand, localCount: nat) {
    && o.In?
    && (o.vector.Arguments? ==> o.index < |p.arguments|)
    && (o.vector.Captures? ==> o.index < |p.captures|)
    && (o.vector.Literals? ==> o.index < |p.literals|)
    && (o.vector.Locals? ==> o.index < localCount)
  }

  /** Removing jumps to the next instruction preserves every run: results, failures and divergence. */
  lemma OptimizeJumpsAlike(p: Program, m: Machine)
    requires UniqueLabels(p.items) && JumpsShaped(p, |m.locals|) && m.pc == 0
    ensures Alike(p, m, p.(items := OptimizeJumps(p.items)), m)
  {
    var keep := KeepJumps(p.items);
    forall i | 0 <= i < |keep| && !keep[i] ensures Idle(p, i, |m.locals|) {
      hide Position;
      var op, os := p.items[i].opcode, p.items[i].operands;
      PositionOfLabel(p.items, p.items[i + 1].id, i + 1);
      forall m': Machine | m'.pc == i && |m'.locals| == (|m.locals|) ensures Step(p, m') == Running(m'.(pc := i + 1)) {
        assert Sources(op, os) == if op.JUMP? then [] else [os[0]];
        assert op.JUMP? || Readable(p, os[0], m'.locals);
      }
    }
    ThinAlike(p, keep, m);
  }

  /** Filtering keeps labels unique. */
  lemma OptimizedLabelsUnique(items: seq<Item>, keep: seq<bool>)
    requires UniqueLabels(items) && |keep| == |items|
    ensures UniqueLabels(Filter(items, keep))
  {
    var r := Filter(items, keep);
    forall i, j | 0 <= i < j < |r| && r[i].Label? && r[j].Label? ensures r[i].id != r[j].id {
      var a := FilterFrom(items, keep, i);
      var b := FilterFrom(items, keep, j);
      if b <= a { IndexGrows(keep, b, a); }
    }
  }
}
