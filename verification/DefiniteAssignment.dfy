/** Definite assignment of instruction lists: locals that are set on every path, and kept while they are needed. */
module DefiniteAssignment {
  import opened Instructions
  import opened ListMachine
  import opened Removal
  import opened Temporaries

  /** The live locals in front of every item and at the end, and the ones that jumps to a label bring along. */
  datatype Flow = Flow(live: seq<set<nat>>, at: map<nat, set<nat>>)

  function Last(f: Flow): set<nat> {
    if |f.live| > 0 then f.live[|f.live| - 1] else {}
  }

  function LocalOf(o: Operand): set<nat> {
    if o.In? && o.vector.Locals? then {o.index} else {}
  }

  function Written(item: Item): set<nat> {
    if item.Instruction? && |item.operands| > 0 && Defines(item, item.operands[0])
      then LocalOf(item.operands[0]) else {}
  }

  predicate Reads(item: Item, t: nat) {
    item.Instruction?
    && exists j :: DestinationCount(item.opcode) <= j < |item.operands| && item.operands[j] == In(Locals, t)
  }

  predicate JumpsTo(item: Item, l: nat) {
    item.Instruction? && To(l) in item.operands
  }

  /** An item reads live locals only, writes none of them, and its jumps keep what their labels need. */
  ghost predicate Passes(item: Item, before: set<nat>, after: set<nat>, at: map<nat, set<nat>>) {
    && (forall t: nat :: Reads(item, t) ==> t in before)
    && Written(item) !! before && after <= before + Written(item)
    && (forall l: nat :: JumpsTo(item, l) ==> l in at && at[l] <= before)
    && (item.Label? ==> item.id in at && before <= at[item.id])
  }

  /** The item makes a slot reference in local r whose tuple or slot is local t. */
  predicate RefersBy(item: Item, r: nat, t: nat) {
    && item.Instruction? && item.opcode.SLOT_REFERENCE_AT? && |item.operands| == 3 && item.operands[0] == In(Locals, r)
    && (item.operands[1] == In(Locals, t) || item.operands[2] == In(Locals, t))
  }

  /** With a reference, its tuple and slot are live. */
  ghost predicate Supported(items: seq<Item>, live: set<nat>) {
    forall i, r: nat, t: nat :: 0 <= i < |items| && RefersBy(items[i], r, t) && r in live ==> t in live
  }

  ghost predicate Guided(items: seq<Item>, f: Flow) {
    |f.live| == |items| + 1 && forall i :: 0 <= i < |items| ==> Passes(items[i], f.live[i], f.live[i + 1], f.at)
  }

  /**
   A certificate of definite assignment: wherever control comes from, live locals were set and are not overwritten
   as long as they are live.
   */
  ghost predicate FlowsOn(items: seq<Item>, f: Flow) {
    && Guided(items, f) && f.live[0] == {}
    && (forall i :: 0 <= i < |f.live| ==> Supported(items, f.live[i]))
    && (forall l :: l in f.at ==> Supported(items, f.at[l]))
  }

  /** Live locals make vanishing references steady: a reference and its operands are set and kept together. */
  lemma FlowSteady(items: seq<Item>, f: Flow)
    requires FlowsOn(items, f) && forall i :: 0 <= i < |items| ==> DefinesLocals(items[i])
    ensures exists steady :: Steady(items, steady)
  {
    hide Precedes;
    var steady := seq(|items| + 1, i requires 0 <= i <= |items| => References(items, f.live[i]));
    forall i, j, r: nat | 0 <= i < |items| && 0 <= j < |steady| && Precedes(items, i, j) && r in steady[j]
      ensures Refreshes(items, i, r) || (r in steady[i] && !Disturbs(items, i, r))
    {
      if !Refreshes(items, i, r) {
        LiveBefore(items, f, i, j, r);
        assert !Disturbs(items, i, r) by {
          forall d | 0 <= d < |items| && Refreshes(items, d, r)
            ensures !Overwrites(items[i], items[d].operands[1]) && !Overwrites(items[i], items[d].operands[2])
          {
            assert !Overwrites(items[i], items[d].operands[1]) by {
              hide OnlyPointer, IsLocalOnlyReference;
              assert Passes(items[i], f.live[i], f.live[i + 1], f.at);
              if items[d].operands[1].In? && items[d].operands[1].vector.Locals? {
                assert RefersBy(items[d], r, items[d].operands[1].index);
              }
            }
            assert !Overwrites(items[i], items[d].operands[2]) by {
              hide OnlyPointer, IsLocalOnlyReference;
              assert Passes(items[i], f.live[i], f.live[i + 1], f.at);
              if items[d].operands[2].In? && items[d].operands[2].vector.Locals? {
                assert RefersBy(items[d], r, items[d].operands[2].index);
              }
            }
          }
        }
      }
    }
    forall i, r: nat | 0 <= i < |items| && Dereferences(items[i], In(Locals, r))
      && IsLocalOnlyReference(items, In(Locals, r))
      ensures r in steady[i]
    {
      assert Reads(items[i], r);
      assert Passes(items[i], f.live[i], f.live[i + 1], f.at);
    }
    assert Steady(items, steady);
  }

  ghost function References(items: seq<Item>, live: set<nat>): set<nat> {
    set r | r in live && IsLocalOnlyReference(items, In(Locals, r))
  }

  lemma LiveBefore(items: seq<Item>, f: Flow, i: nat, j: nat, r: nat)
    requires FlowsOn(items, f) && i < |items| && DefinesLocals(items[i]) && Precedes(items, i, j) && j <= |items|
    requires r in f.live[j] && IsLocalOnlyReference(items, In(Locals, r)) && !Refreshes(items, i, r)
    ensures r in f.live[i]
  {
    hide Supported, OnlyPointer;
    assert Passes(items[i], f.live[i], f.live[i + 1], f.at);
    if j != i + 1 {
      var l: nat :| To(l) in items[i].operands && Position(items, l) == j;
      assert JumpsTo(items[i], l) && Passes(items[j], f.live[j], f.live[j + 1], f.at);
    } else if r in Written(items[i]) {
      if !items[i].opcode.SLOT_REFERENCE_AT? { DefinedMeansOrdinary(items, i, In(Locals, r), SLOT_REFERENCE_AT); }
    }
  }

  /** One more item, with its live locals behind it. */
  function Extend(f: Flow, live: set<nat>): Flow {
    f.(live := f.live + [live])
  }

  /** Fewer locals are live at the end. */
  function Forget(f: Flow, live: set<nat>): Flow {
    if |f.live| > 0 then f.(live := f.live[..|f.live| - 1] + [live]) else f
  }

  lemma ExtendGuided(items: seq<Item>, f: Flow, item: Item, live: set<nat>)
    requires Guided(items, f) && Passes(item, Last(f), live, f.at)
    ensures Guided(items + [item], Extend(f, live)) && Last(Extend(f, live)) == live
  {
    hide Passes;
    var all, f1 := items + [item], Extend(f, live);
    forall i | 0 <= i < |all| ensures Passes(all[i], f1.live[i], f1.live[i + 1], f1.at) {
      if i < |items| { assert Passes(items[i], f.live[i], f.live[i + 1], f.at); }
    }
  }

  lemma ForgetGuided(items: seq<Item>, f: Flow, live: set<nat>)
    requires Guided(items, f) && live <= Last(f)
    ensures Guided(items, Forget(f, live)) && Last(Forget(f, live)) == live
  {
    hide Passes;
    var f1 := Forget(f, live);
    assert |f1.live| == |f.live|;
    forall i | 0 <= i < |items| ensures Passes(items[i], f1.live[i], f1.live[i + 1], f1.at) {
      assert Passes(items[i], f.live[i], f.live[i + 1], f.at);
      if i == |items| - 1 { PassesLess(items[i], f.live[i], f.live[i + 1], live, f.at); }
    }
  }

  /** Removing items that write nothing keeps assignment definite. */
  lemma FilterFlows(items: seq<Item>, keep: seq<bool>, f: Flow) returns (f1: Flow)
    requires FlowsOn(items, f) && |keep| == |items|
    requires forall i :: 0 <= i < |items| && !keep[i] ==> Written(items[i]) == {}
    ensures FlowsOn(Filter(items, keep), f1)
  {
    hide Passes, Supported, Filter;
    f1 := FilterGuided(items, keep, f);
    forall i | 0 <= i < |f1.live| ensures Supported(Filter(items, keep), f1.live[i]) {
      assert f1.live[i] in f.live;
      FilterSupported(items, keep, f1.live[i]);
    }
    forall l | l in f.at ensures Supported(Filter(items, keep), f.at[l]) { FilterSupported(items, keep, f.at[l]); }
  }

  lemma FilterSupported(items: seq<Item>, keep: seq<bool>, live: set<nat>)
    requires Supported(items, live) && |keep| == |items|
    ensures Supported(Filter(items, keep), live)
  {
    hide Filter, RefersBy;
    forall k, r: nat, t: nat | 0 <= k < |Filter(items, keep)| && RefersBy(Filter(items, keep)[k], r, t)
      && r in live ensures t in live {
      var i := FilterFrom(items, keep, k);
    }
  }

  lemma {:induction false} FilterGuided(items: seq<Item>, keep: seq<bool>, f: Flow) returns (f1: Flow)
    requires Guided(items, f) && |keep| == |items|
    requires forall i :: 0 <= i < |items| && !keep[i] ==> Written(items[i]) == {}
    ensures Guided(Filter(items, keep), f1) && f1.at == f.at && Last(f1) == Last(f) && f1.live[0] <= f.live[0]
    ensures forall live :: live in f1.live ==> live in f.live
  {
    if items == [] {
      f1 := f;
    } else {
      hide Passes, Filter;
      var last := |items| - 1;
      assert Passes(items[last], f.live[last], f.live[last + 1], f.at);
      var before := FilterGuided(items[..last], keep[..last], Flow(f.live[..last + 1], f.at));
      var rest := Filter(items[..last], keep[..last]);
      assert (var last := |items| - 1;
              Filter(items, keep) == Filter(items[..last], keep[..last]) + if keep[last] then [items[last]] else []);
      if keep[last] {
        f1 := Extend(before, Last(f));
        ExtendGuided(rest, before, items[last], Last(f));
      } else {
        DroppedShrinks(items[last], f.live[last], Last(f), f.at);
        f1 := Forget(before, Last(f));
        ForgetGuided(rest, before, Last(f));
      }
      forall live | live in f1.live ensures live in f.live {
        if live != Last(f) { assert live in before.live; }
      }
    }
  }

  lemma DroppedShrinks(item: Item, before: set<nat>, after: set<nat>, at: map<nat, set<nat>>)
    requires Passes(item, before, after, at) && Written(item) == {}
    ensures after <= before
  {
  }

  lemma PassesLess(item: Item, before: set<nat>, after: set<nat>, less: set<nat>, at: map<nat, set<nat>>)
    requires Passes(item, before, after, at) && less <= after
    ensures Passes(item, before, less, at)
  {
  }

  // What the certificate means for runs.

  /** The locals that are written in the first n steps. */
  ghost function WrittenIn(p: Program, m: Machine, n: nat): set<nat>
    decreases n
  {
    if n == 0 || m.pc >= |p.items| || !Step(p, m).Running? then {}
    else Written(p.items[m.pc]) + WrittenIn(p, Step(p, m).machine, n - 1)
  }

  lemma {:induction false} LiveIsWritten(p: Program, f: Flow, m: Machine, n: nat, before: set<nat>)
    requires Guided(p.items, f) && m.pc <= |p.items| && f.live[m.pc] <= before && Iterate(p, m, n).Running?
    ensures var pc := Iterate(p, m, n).machine.pc;
            pc <= |p.items| && f.live[pc] <= before + WrittenIn(p, m, n)
    decreases n
  {
    if n > 0 {
      var l := StepGoes(p, m);
      assert (var pc := Step(p, m).machine.pc;
              pc <= |p.items| && f.live[pc] <= f.live[m.pc] + Written(p.items[m.pc])) by {
        assert Passes(p.items[m.pc], f.live[m.pc], f.live[m.pc + 1], f.at);
        var l := StepGoes(p, m);
        var pc := Step(p, m).machine.pc;
        if pc != m.pc + 1 {
          assert JumpsTo(p.items[m.pc], l);
          assert Passes(p.items[pc], f.live[pc], f.live[pc + 1], f.at);
        }
      }
      LiveIsWritten(p, f, Step(p, m).machine, n - 1, before + Written(p.items[m.pc]));
    }
  }

  /** No run of a list with a flow reads a local before it has written it. */
  lemma ReadsAreWritten(p: Program, f: Flow, m: Machine, n: nat, t: nat)
    requires FlowsOn(p.items, f) && m.pc == 0 && Iterate(p, m, n).Running?
    requires var pc := Iterate(p, m, n).machine.pc;
             pc < |p.items| && Reads(p.items[pc], t)
    ensures t in WrittenIn(p, m, n)
  {
    hide Iterate, Supported;
    LiveIsWritten(p, f, m, n, {});
    var pc := Iterate(p, m, n).machine.pc;
    assert Passes(p.items[pc], f.live[pc], f.live[pc + 1], f.at);
  }
}
