/** Ordered offset tables: run-compressed logs of offsets, searched by bisection. */
module OffsetTable {
  import opened Instructions
  import opened Encoding

  const NULL := 0

  datatype Entry = Entry(offset: nat, value: nat)

  predicate NonDecreasing(log: seq<Entry>) {
    forall i, j :: 0 <= i < j < |log| ==> log[i].offset <= log[j].offset
  }

  /** What a table should answer: the value logged last at the offset or before it. */
  function LastLogged(log: seq<Entry>, offset: nat): nat {
    if log == [] then NULL
    else if log[|log| - 1].offset <= offset then log[|log| - 1].value
    else LastLogged(log[..|log| - 1], offset)
  }

  /** An entry with the value of the one before it is not stored. */
  function Compressed(log: seq<Entry>): seq<Entry> {
    if log == [] then []
    else
      var before, last := Compressed(log[..|log| - 1]), log[|log| - 1];
      if before != [] && before[|before| - 1].value == last.value then before else before + [last]
  }

  lemma {:induction false} CompressedSorted(log: seq<Entry>)
    requires NonDecreasing(log)
    ensures var short := Compressed(log);
            && NonDecreasing(short)
            && (short == [] <==> log == [])
            && (log != [] ==>
                  short[|short| - 1].value == log[|log| - 1].value
                  && short[|short| - 1].offset <= log[|log| - 1].offset)
  {
    if log != [] { CompressedSorted(log[..|log| - 1]); }
  }

  /** Leaving out repeated values loses nothing. */
  lemma {:induction false} CompressionKeepsAnswers(log: seq<Entry>, offset: nat)
    requires NonDecreasing(log)
    ensures LastLogged(Compressed(log), offset) == LastLogged(log, offset)
  {
    if log != [] {
      var before, last := log[..|log| - 1], log[|log| - 1];
      CompressedSorted(before);
      CompressionKeepsAnswers(before, offset);
      var short := Compressed(before);
      if short != [] && short[|short| - 1].value == last.value {
      } else {
        assert (short + [last])[..|short|] == short;
      }
    }
  }

  /** In a sorted table the answer is the value of the entry at which the offsets exceed the query. */
  lemma {:induction false} LastLoggedAt(table: seq<Entry>, offset: nat, n: nat)
    requires NonDecreasing(table) && n <= |table|
    requires forall i :: 0 <= i < n ==> table[i].offset <= offset
    requires forall i :: n <= i < |table| ==> table[i].offset > offset
    ensures LastLogged(table, offset) == if n == 0 then NULL else table[n - 1].value
  {
    if n < |table| { LastLoggedAt(table[..|table| - 1], offset, n); }
  }

  function Zip(keys: seq<nat>, values: seq<nat>): (entries: seq<Entry>)
    requires |keys| == |values|
    ensures |entries| == |keys| && forall i :: 0 <= i < |keys| ==> entries[i] == Entry(keys[i], values[i])
  {
    seq(|keys|, i requires 0 <= i < |keys| => Entry(keys[i], values[i]))
  }

  class OrderedOffsetTable {
    const keys: array<nat>
    const values: array<nat>

    constructor (keys: array<nat>, values: array<nat>)
      ensures this.keys == keys && this.values == values
    {
      this.keys, this.values := keys, values;
    }

    /** The table holds the log in its compressed form. */
    ghost predicate Holds(log: seq<Entry>)
      reads keys, values
    {
      NonDecreasing(log) && keys.Length == values.Length && Zip(keys[..], values[..]) == Compressed(log)
    }
  }

  /** Bisection answers what a scan of the whole log would. */
  method FindValueWithOffset(table: OrderedOffsetTable?, offset: nat, ghost log: seq<Entry>) returns (value: nat)
    requires if table == null then log == [] else table.Holds(log)
    ensures value == LastLogged(log, offset)
  {
    hide Compressed;
    if table == null { return NULL; }
    ghost var entries := Compressed(log);
    CompressedSorted(log);
    CompressionKeepsAnswers(log, offset);
    var lower, upper, bestFound := 0, table.values.Length, -1;
    while lower < upper
      invariant 0 <= lower <= upper <= table.values.Length && bestFound == lower - 1
      invariant forall i :: 0 <= i < lower ==> entries[i].offset <= offset
      invariant forall i :: upper <= i < |entries| ==> entries[i].offset > offset
    {
      var middle := lower + (upper - lower) / 2;
      var entryPC := table.keys[middle];
      assert entryPC == entries[middle].offset;
      if entryPC <= offset {
        lower := middle + 1;
        bestFound := middle;
      } else {
        upper := middle;
      }
    }
    LastLoggedAt(entries, offset, lower);
    if bestFound < 0 || bestFound >= table.values.Length { return NULL; }
    value := table.values[bestFound];
  }

  class OrderedOffsetTableBuilder {
    var keys: seq<nat>
    var values: seq<nat>

    ghost predicate Logged(log: seq<Entry>)
      reads this
    {
      NonDecreasing(log) && |keys| == |values| && Zip(keys, values) == Compressed(log)
    }

    constructor ()
      ensures Logged([])
    {
      keys, values := [], [];
    }

    method WithOffsetAddValue(offset: nat, value: nat, ghost log: seq<Entry>)
      requires Logged(log) && NonDecreasing(log + [Entry(offset, value)])
      modifies this
      ensures Logged(log + [Entry(offset, value)])
    {
      assert (log + [Entry(offset, value)])[..|log|] == log;
      var size := |keys|;
      if size > 0 {
        var lastValue := values[size - 1];
        if lastValue == value { return; }
      }
      keys, values := keys + [offset], values + [value];
      assert Zip(keys, values) == Zip(old(keys), old(values)) + [Entry(offset, value)];
    }

    /** No table is made for an empty log. */
    method Finish(ghost log: seq<Entry>) returns (table: OrderedOffsetTable?)
      requires Logged(log)
      ensures if table == null then log == [] else fresh(table) && table.Holds(log)
    {
      CompressedSorted(log);
      if |keys| == 0 { return null; }
      var keyArray := new nat[|keys|](i requires 0 <= i < |keys| reads this => keys[i]);
      var valueArray := new nat[|values|](i requires 0 <= i < |values| reads this => values[i]);
      assert keyArray[..] == keys && valueArray[..] == values;
      table := new OrderedOffsetTable(keyArray, valueArray);
    }
  }

  // The tables of a function: one entry per instruction or label, at its program counter.

  function DebugLog(items: seq<Item>, positions: seq<nat>): (log: seq<Entry>)
    requires |positions| == |items|
    ensures |log| == |items| && forall i :: 0 <= i < |items| ==> log[i] == Entry(PcOf(items, i), positions[i])
  {
    seq(|items|, i requires 0 <= i < |items| => Entry(PcOf(items, i), positions[i]))
  }

  /** Every byte of an instruction maps to the instruction's position, whatever labels of size zero surround it. */
  lemma PositionOfPc(items: seq<Item>, positions: seq<nat>, i: nat, pc: nat)
    requires |positions| == |items| && i < |items| && PcOf(items, i) <= pc < PcOf(items, i + 1)
    ensures LastLogged(DebugLog(items, positions), pc) == positions[i]
  {
    var log := DebugLog(items, positions);
    assert NonDecreasing(DebugLog(items, positions)) by {
      forall i, j | 0 <= i < j < |items| ensures PcOf(items, i) <= PcOf(items, j) {
        PcGrows(items, i, j);
      }
    }
    forall k | 0 <= k <= i ensures log[k].offset <= pc { PcGrows(items, k, i); }
    forall k | i + 1 <= k < |log| ensures log[k].offset > pc { PcGrows(items, i + 1, k); }
    LastLoggedAt(log, pc, i + 1);
  }

  /** The table that compilation makes, to be searched with any program counter of the function. */
  method BuildDebugTable(items: seq<Item>, positions: seq<nat>) returns (table: OrderedOffsetTable?)
    requires |positions| == |items|
    ensures if table == null then items == [] else fresh(table) && table.Holds(DebugLog(items, positions))
  {
    hide Size;
    ghost var log := DebugLog(items, positions);
    assert NonDecreasing(DebugLog(items, positions)) by {
      forall i, j | 0 <= i < j < |items| ensures PcOf(items, i) <= PcOf(items, j) {
        PcGrows(items, i, j);
      }
    }
    var builder := new OrderedOffsetTableBuilder();
    var instructionsOffset := 0;
    for i := 0 to |items|
      invariant fresh(builder) && builder.Logged(log[..i]) && instructionsOffset == PcOf(items, i)
    {
      hide builder.Logged;
      assert log[..i + 1] == log[..i] + [log[i]] && NonDecreasing(log[..i + 1]);
      var pc := instructionsOffset;
      instructionsOffset := instructionsOffset + Size(items[i]);
      builder.WithOffsetAddValue(pc, positions[i], log[..i]);
    }
    assert log[..|items|] == log;
    table := builder.Finish(log);
  }

  /** Searching a function's table with a byte's address gives the position of the instruction that the byte is in. */
  method FindSourcePosition(items: seq<Item>, positions: seq<nat>, table: OrderedOffsetTable, pc: nat)
    returns (position: nat)
    requires |positions| == |items| && table.Holds(DebugLog(items, positions))
    ensures forall i :: 0 <= i < |items| && PcOf(items, i) <= pc < PcOf(items, i + 1) ==> position == positions[i]
  {
    hide OrderedOffsetTable.Holds, LastLogged;
    position := FindValueWithOffset(table, pc, DebugLog(items, positions));
    forall i | 0 <= i < |items| && PcOf(items, i) <= pc < PcOf(items, i + 1) ensures position == positions[i] {
      PositionOfPc(items, positions, i, pc);
    }
  }
}
