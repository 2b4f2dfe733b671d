/** The rows for the source positions of a function: the two passes of the JIT compiler over its records. */
module LineInformation {
  import opened Values
  import opened Leb128
  import opened LineProgram

  const MAX_FILES := 8
  const NULL_SOURCE := 0
  const INT32_MAX := 0x7FFF_FFFF
  const INT32_MIN := -0x8000_0000

  /** A source position may be null, and so may its source code. */
  datatype SourcePosition = NoPosition | Position(sourceCode: nat)

  datatype Record = Record(position: SourcePosition, pc: nat, line: nat, column: nat)

  predicate NonDecreasing(records: seq<Record>) {
    forall i, j :: 0 <= i < j < |records| ==> records[i].pc <= records[j].pc
  }

  // What the program should say.

  function AddSource(files: seq<nat>, p: SourcePosition): seq<nat> {
    if p.NoPosition? || p.sourceCode == NULL_SOURCE || p.sourceCode in files then files else files + [p.sourceCode]
  }

  /** The file table: the function's own source code, then the others in the order of their first record. */
  function Files(own: SourcePosition, records: seq<Record>): seq<nat> {
    if records == [] then AddSource([], own)
    else AddSource(Files(own, records[..|records| - 1]), records[|records| - 1].position)
  }

  /** Table entries are numbered from one; zero stands for none. */
  function IndexOf(files: seq<nat>, source: nat): (index: nat)
    ensures index <= |files|
    ensures index > 0 ==> files[index - 1] == source
    ensures index == 0 <==> source !in files
  {
    if files == [] then 0
    else
      var index := IndexOf(files[..|files| - 1], source);
      if index > 0 then index else if files[|files| - 1] == source then |files| else 0
  }

  /** Without any file, no instruction changes the initial file register. */
  function FileNumber(files: seq<nat>, source: nat): nat {
    if files == [] && source == NULL_SOURCE then 1 else IndexOf(files, source)
  }

  function Rows(files: seq<nat>, records: seq<Record>): seq<Row> {
    if records == [] then []
    else
      var last := records[|records| - 1];
      Rows(files, records[..|records| - 1])
      + if last.position.NoPosition? then []
        else [Row(last.pc, FileNumber(files, last.position.sourceCode), last.line, last.column, false)]
  }

  function LastRow(rows: seq<Row>): Row {
    if rows == [] then RowOf(INITIAL, false) else rows[|rows| - 1]
  }

  /** The sequence ends at the address of its last row. */
  function EndRow(rows: seq<Row>): Row {
    LastRow(rows).(endSequence := true)
  }

  /** The file table has no duplicates and no null, and keeps every source code it ever had. */
  lemma {:induction false} FilesCover(own: SourcePosition, records: seq<Record>)
    ensures var files := Files(own, records);
            && (forall i, j :: 0 <= i < j < |files| ==> files[i] != files[j])
            && NULL_SOURCE !in files
            && (own.Position? && own.sourceCode != NULL_SOURCE ==> own.sourceCode in files)
            && (forall i ::
                  0 <= i < |records| && records[i].position.Position?
                  && records[i].position.sourceCode != NULL_SOURCE ==>
                    records[i].position.sourceCode in files)
  {
    if records != [] {
      FilesCover(own, records[..|records| - 1]);
    }
  }

  /** The file register of a record's row names the record's source code in the file table. */
  lemma FileNamesSource(own: SourcePosition, records: seq<Record>, i: nat)
    requires i < |records| && records[i].position.Position? && records[i].position.sourceCode != NULL_SOURCE
    ensures var files, source := Files(own, records), records[i].position.sourceCode;
            var file := FileNumber(files, source);
            && 1 <= file <= |files| && files[file - 1] == source
            && (forall k :: 0 <= k < |files| && files[k] == source ==> k == file - 1)
  {
    FilesCover(own, records);
  }

  // The line advances that the preprocessing pass takes into account; it subtracts the other way round than the
  // emission.

  function PreviousLine(records: seq<Record>): nat {
    if records == [] then 1
    else if records[|records| - 1].position.NoPosition? then PreviousLine(records[..|records| - 1])
    else records[|records| - 1].line
  }

  function SmallAdvances(records: seq<Record>): seq<int> {
    if records == [] then []
    else
      var before, last := records[..|records| - 1], records[|records| - 1];
      var advance := PreviousLine(before) - last.line;
      SmallAdvances(before) + if last.position.Position? && -8 < advance < 8 then [advance] else []
  }

  predicate Bounds(advances: seq<int>, low: int, high: int) {
    if advances == [] then low == INT32_MAX && high == INT32_MIN
    else low in advances && high in advances && forall a :: a in advances ==> low <= a <= high
  }

  lemma {:induction false} SmallAdvancesAreSmall(records: seq<Record>)
    ensures forall a :: a in SmallAdvances(records) ==> -8 < a < 8
  {
    if records != [] { SmallAdvancesAreSmall(records[..|records| - 1]); }
  }

  /** The header's line base and range fit their signed and unsigned byte. */
  ghost predicate ChosenHeader(records: seq<Record>, h: Header) {
    exists low, high ::
      && Bounds(SmallAdvances(records), low, high)
      && h == if low > high then Header(1, 1) else Header(low, if high - low < 1 then 1 else high - low)
  }

  lemma ChosenHeaderFits(records: seq<Record>, h: Header)
    requires ChosenHeader(records, h)
    ensures -8 < h.lineBase < 8 && 1 <= h.lineRange < 16
  {
    SmallAdvancesAreSmall(records);
  }

  class LineInfoEmission {
    var files: seq<nat>
    var previousLine: nat
    var minLineAdvance: int
    var maxLineAdvance: int
    var currentFile: nat
    var pc: nat

    constructor ()
      ensures files == []
    {
      files := [];
    }

    method IndexOfFile(file: nat) returns (index: nat)
      ensures index == IndexOf(files, file)
    {
      for i := 0 to |files|
        invariant IndexOf(files[..i], file) == 0
      {
        assert files[..i + 1][..i] == files[..i];
        if files[i] == file {
          IndexOfPrefix(files, file, i + 1);
          return i + 1;
        }
      }
      assert files[..|files|] == files;
      index := 0;
    }

    method AddSourceCode(p: SourcePosition)
      requires |AddSource(files, p)| <= MAX_FILES
      modifies this`files
      ensures files == AddSource(old(files), p)
    {
      if p.NoPosition? || p.sourceCode == NULL_SOURCE { return; }
      var index := IndexOfFile(p.sourceCode);
      if index == 0 { files := files + [p.sourceCode]; }
    }

    method AddSourcePosition(p: SourcePosition, line: nat)
      requires |AddSource(files, p)| <= MAX_FILES
      modifies this`files, this`previousLine, this`minLineAdvance, this`maxLineAdvance
      ensures files == AddSource(old(files), p)
      ensures previousLine == if p.NoPosition? then old(previousLine) else line
      ensures minLineAdvance == if p.Position? && -8 < old(previousLine) - line < 8
              && old(previousLine) - line < old(minLineAdvance)
                                then old(previousLine) - line else old(minLineAdvance)
      ensures maxLineAdvance == if p.Position? && -8 < old(previousLine) - line < 8
              && old(previousLine) - line > old(maxLineAdvance)
                                then old(previousLine) - line else old(maxLineAdvance)
    {
      if p.NoPosition? { return; }
      AddSourceCode(p);
      var lineAdvance := previousLine - line;
      if -8 < lineAdvance < 8 {
        if lineAdvance < minLineAdvance { minLineAdvance := lineAdvance; }
        if lineAdvance > maxLineAdvance { maxLineAdvance := lineAdvance; }
      }
      previousLine := line;
    }

    /** The first pass: the file table and the line base and range. */
    method Preprocess(own: SourcePosition, records: seq<Record>) returns (header: Header)
      requires files == [] && |Files(own, records)| <= MAX_FILES
      modifies this
      ensures files == Files(own, records) && ChosenHeader(records, header)
    {
      hide Files, AddSource, SmallAdvances, PreviousLine, Bounds;
      PreprocessStart(own, records);
      AddSourceCode(own);
      previousLine, minLineAdvance, maxLineAdvance := 1, INT32_MAX, INT32_MIN;
      for i := 0 to |records|
        invariant files == Files(own, records[..i]) && previousLine == PreviousLine(records[..i])
        invariant Bounds(SmallAdvances(records[..i]), minLineAdvance, maxLineAdvance)
      {
        PreprocessStep(own, records, i, minLineAdvance, maxLineAdvance);
        AddSourcePosition(records[i].position, records[i].line);
      }
      assert records[..|records|] == records;
      ghost var low, high := minLineAdvance, maxLineAdvance;
      if minLineAdvance > maxLineAdvance { minLineAdvance, maxLineAdvance := 1, 1; }
      var lineRange := maxLineAdvance - minLineAdvance;
      if lineRange < 1 { lineRange := 1; }
      header := Header(minLineAdvance, lineRange);
    }

    /** The builder's registers stand where the emission does. */
    ghost predicate InStep(builder: LineProgramBuilder, rows: seq<Row>)
      reads this, builder
    {
      && builder.Valid() && builder.rows == rows
      && builder.regAddress == pc && builder.regLine == previousLine
      && builder.regFile == FileNumber(files, currentFile)
      && builder.Current() == Registers(LastRow(rows).address, LastRow(rows).file, LastRow(rows).line,
                                        LastRow(rows).column)
    }

    method EmitSourcePosition(builder: LineProgramBuilder, r: Record)
      requires InStep(builder, builder.rows) && pc <= r.pc
      requires files == [] ==> r.position.NoPosition? || r.position.sourceCode == currentFile == NULL_SOURCE
      modifies builder, this`currentFile, this`pc, this`previousLine
      ensures builder.rows == old(builder.rows) + Rows(files, [r])
      ensures InStep(builder, builder.rows)
      ensures r.position.NoPosition? ==> pc == old(pc) && currentFile == old(currentFile)
      ensures r.position.Position? ==> pc == r.pc && currentFile == r.position.sourceCode
    {
      hide Run;
      assert Rows(files, [r]) == RowsOfOne(files, r) by { assert [r][..0] == []; }
      if r.position.NoPosition? {
        assert builder.rows == builder.rows + [];
        return;
      }
      if r.position.sourceCode != currentFile {
        var index := IndexOfFile(r.position.sourceCode);
        assert FileNumber(files, r.position.sourceCode) == index;
        builder.SetFile(index);
        currentFile := r.position.sourceCode;
      }
      builder.SetColumn(r.column);
      var pcAdvance := r.pc - pc;
      var lineAdvance := r.line - previousLine;
      builder.AdvanceLineAndPC(lineAdvance, pcAdvance);
      pc := r.pc;
      previousLine := r.line;
    }
  }

  lemma PreprocessStart(own: SourcePosition, records: seq<Record>)
    ensures Files(own, records[..0]) == AddSource([], own)
    ensures |AddSource([], own)| <= |Files(own, records)|
    ensures PreviousLine(records[..0]) == 1 && Bounds(SmallAdvances(records[..0]), INT32_MAX, INT32_MIN)
  {
    FilesGrow(own, records, 0);
  }

  /** One record more: its file, its line, and its advance if that is small. */
  lemma PreprocessStep(own: SourcePosition, records: seq<Record>, i: nat, low: int, high: int)
    requires i < |records| && Bounds(SmallAdvances(records[..i]), low, high)
    ensures var p, line := records[i].position, records[i].line;
            var advance := PreviousLine(records[..i]) - line;
            var small := p.Position? && -8 < advance < 8;
            && Files(own, records[..i + 1]) == AddSource(Files(own, records[..i]), p)
            && |Files(own, records[..i + 1])| <= |Files(own, records)|
            && PreviousLine(records[..i + 1]) == (if p.NoPosition? then PreviousLine(records[..i]) else line)
            && Bounds(SmallAdvances(records[..i + 1]),
                      if small && advance < low then advance else low,
                      if small && advance > high then advance else high)
  {
    var before, after := records[..i], records[..i + 1];
    assert after[..i] == before && after[i] == records[i];
    FilesGrow(own, records, i + 1);
    SmallAdvancesAreSmall(before);
  }

  function RowsOfOne(files: seq<nat>, r: Record): seq<Row> {
    if r.position.NoPosition? then []
    else [Row(r.pc, FileNumber(files, r.position.sourceCode), r.line, r.column, false)]
  }

  lemma {:induction false} IndexOfPrefix(files: seq<nat>, source: nat, n: nat)
    requires n <= |files| && IndexOf(files[..n], source) > 0
    ensures IndexOf(files, source) == IndexOf(files[..n], source)
    decreases |files|
  {
    if n == |files| {
      assert files[..n] == files;
    } else {
      var before := files[..|files| - 1];
      assert before[..n] == files[..n];
      IndexOfPrefix(before, source, n);
    }
  }

  lemma {:induction false} FilesGrow(own: SourcePosition, records: seq<Record>, n: nat)
    requires n <= |records|
    ensures |Files(own, records[..n])| <= |Files(own, records)|
  {
    if n == |records| {
      assert records[..n] == records;
    } else {
      var before := records[..|records| - 1];
      assert before[..n] == records[..n];
      FilesGrow(own, before, n);
    }
  }

  /**
   The line number program of a function: the standard's state machine lists one row for every record with a source
   position, in order, and ends the sequence, whichever opcodes were chosen.
   */
  method EmitDebugLineInfo(own: SourcePosition, records: seq<Record>)
    returns (emitted: bool, header: Header, files: seq<nat>, program: seq<Byte>)
    requires NonDecreasing(records) && |Files(own, records)| <= MAX_FILES
    ensures emitted <==> records != []
    ensures emitted ==> files == Files(own, records) && ChosenHeader(records, header) && header.lineRange > 0
    ensures emitted ==>
      Run(header, program, INITIAL) == Listing(Rows(files, records) + [EndRow(Rows(files, records))], INITIAL)
  {
    hide Run, Files, Rows, ChosenHeader, FileNumber;
    emitted, header, files, program := records != [], Header(1, 1), [], [];
    if !emitted { return; }
    var state := new LineInfoEmission();
    header := state.Preprocess(own, records);
    ChosenHeaderFits(records, header);
    files := state.files;
    state.previousLine, state.pc, state.currentFile := 1, 0, NULL_SOURCE;
    if |state.files| > 0 { state.currentFile := state.files[0]; }
    FirstFile(own, records);
    var builder := new LineProgramBuilder(header);
    builder.SetAddress(state.pc);
    for i := 0 to |records|
      invariant fresh(builder) && fresh(state) && builder.header == header && state.files == files
      invariant builder.rows == Rows(files, records[..i]) && state.InStep(builder, builder.rows)
      invariant i == 0 ==> state.pc == 0
      invariant i > 0 ==> state.pc <= records[i - 1].pc
      invariant files == [] ==> state.currentFile == NULL_SOURCE
    {
      assert i > 0 ==> records[i - 1].pc <= records[i].pc;
      assert Files(own, records) == [] ==>
             records[i].position.NoPosition? || records[i].position.sourceCode == NULL_SOURCE by {
        FilesCover(own, records);
      }
      RowsStep(files, records, i);
      state.EmitSourcePosition(builder, records[i]);
    }
    assert records[..|records|] == records;
    program := builder.EndSequence();
  }

  lemma FirstFile(own: SourcePosition, records: seq<Record>)
    ensures var files := Files(own, records);
            FileNumber(files, if files == [] then NULL_SOURCE else files[0]) == 1
    ensures Rows(Files(own, records), records[..0]) == [] && LastRow([]) == RowOf(INITIAL, false) && Limit(8) > 0
  {
    var files := Files(own, records);
    FilesCover(own, records);
    if files != [] {
      assert IndexOf(files[..1], files[0]) == 1;
      IndexOfPrefix(files, files[0], 1);
    }
  }

  lemma RowsStep(files: seq<nat>, records: seq<Record>, i: nat)
    requires i < |records|
    ensures Rows(files, records[..i + 1]) == Rows(files, records[..i]) + Rows(files, [records[i]])
  {
    var after := records[..i + 1];
    assert after[..i] == records[..i] && after[i] == records[i];
    assert [records[i]][..0] == [];
  }
}
