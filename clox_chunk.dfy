/**
 * clox bytecode chunks (chunk.c): a growable code buffer, a run-length
 * encoding of the source line of every byte, and the constant pool.
 */
module CloxChunk {
  import opened CloxGrow
  import opened CloxValue

  datatype OpCode = OpConstant | OpAdd | OpSubtract | OpMultiply | OpDivide | OpNegate | OpReturn

  /** The byte an instruction's opcode is written as: its place in the enumeration. */
  function OpByte(op: OpCode): bv8 {
    match op
    case OpConstant => 0
    case OpAdd => 1
    case OpSubtract => 2
    case OpMultiply => 3
    case OpDivide => 4
    case OpNegate => 5
    case OpReturn => 6
  }

  /** The line `lineNumber` begins at byte `offset` and lasts until the next start. */
  datatype LineStart = LineStart(lineNumber: int, offset: int)

  /**
   * The run-length encoding writeChunk builds for bytes whose lines are
   * `lines`: one start for each maximal run of equal line numbers.
   */
  function EncodeLines(lines: seq<int>): seq<LineStart>
  {
    if lines == [] then []
    else
      var starts := EncodeLines(lines[..|lines| - 1]);
      var line := lines[|lines| - 1];
      if |starts| > 0 && starts[|starts| - 1].lineNumber == line then starts
      else starts + [LineStart(line, |lines| - 1)]
  }

  /** The line recorded for byte `offset`: the line of the last start at or before it. */
  function LineOf(starts: seq<LineStart>, offset: int): int
  {
    if starts == [] then 0
    else if starts[|starts| - 1].offset <= offset then starts[|starts| - 1].lineNumber
    else LineOf(starts[..|starts| - 1], offset)
  }

  /** Decoding recovers every byte's line. */
  lemma DecodeAll(lines: seq<int>)
    ensures forall i :: 0 <= i < |lines| ==> LineOf(EncodeLines(lines), i) == lines[i]
  {
    forall i | 0 <= i < |lines| {
      LineOfEncodeLines(lines, i);
    }
  }

  /** Appending one byte's line extends the last run or starts a new one at that byte. */
  lemma EncodeLinesSnoc(lines: seq<int>, line: int)
    ensures var starts := EncodeLines(lines);
      EncodeLines(lines + [line])
        == if |starts| > 0 && starts[|starts| - 1].lineNumber == line then starts
           else starts + [LineStart(line, |lines|)]
  {
    var longer := lines + [line];
    assert longer[..|longer| - 1] == lines && longer[|longer| - 1] == line;
  }

  /** A well-formed line table for `n` bytes: starts at 0, offsets strictly increase and stay below n, neighbouring runs differ in line. */
  ghost predicate WellFormedStarts(starts: seq<LineStart>, n: nat) {
    (n == 0 <==> starts == [])
    && (starts != [] ==> starts[0].offset == 0)
    && (forall i :: 0 <= i < |starts| ==> 0 <= starts[i].offset < n)
    && (forall i, j :: 0 <= i < j < |starts| ==> starts[i].offset < starts[j].offset)
    && (forall i, j :: 0 <= i && j == i + 1 && j < |starts| ==> starts[i].lineNumber != starts[j].lineNumber)
  }

  /** The encoding is well formed and has no more starts than bytes. */
  lemma {:induction false} EncodeLinesWellFormed(lines: seq<int>)
    ensures WellFormedStarts(EncodeLines(lines), |lines|)
    ensures |EncodeLines(lines)| <= |lines|
    ensures lines != [] ==> EncodeLines(lines)[|EncodeLines(lines)| - 1].lineNumber == lines[|lines| - 1]
  {
    if lines != [] {
      var prefix := lines[..|lines| - 1];
      var line := lines[|lines| - 1];
      EncodeLinesWellFormed(prefix);
      var starts := EncodeLines(prefix);
      if |starts| > 0 && starts[|starts| - 1].lineNumber == line {
        assert EncodeLines(lines) == starts;
        WellFormedLonger(starts, |prefix|);
      } else {
        assert EncodeLines(lines) == starts + [LineStart(line, |prefix|)];
        WellFormedSnoc(starts, |prefix|, line);
      }
    }
  }

  /** One more byte on the last run's line keeps a table well formed. */
  lemma WellFormedLonger(starts: seq<LineStart>, n: nat)
    requires WellFormedStarts(starts, n) && starts != []
    ensures WellFormedStarts(starts, n + 1)
  {
  }

  /** A new run starting at byte n, on a line other than the last run's, keeps a table well formed. */
  lemma WellFormedSnoc(starts: seq<LineStart>, n: nat, line: int)
    requires WellFormedStarts(starts, n)
    requires starts != [] ==> starts[|starts| - 1].lineNumber != line
    ensures WellFormedStarts(starts + [LineStart(line, n)], n + 1)
  {
    var longer := starts + [LineStart(line, n)];
    assert forall i :: 0 <= i < |starts| ==> longer[i] == starts[i];
  }

  /** Decoding the encoding gives back the line of every byte. */
  lemma {:induction false} LineOfEncodeLines(lines: seq<int>, offset: nat)
    requires offset < |lines|
    ensures LineOf(EncodeLines(lines), offset) == lines[offset]
  {
    var prefix := lines[..|lines| - 1];
    var starts := EncodeLines(prefix);
    EncodeLinesWellFormed(prefix);
    if offset < |lines| - 1 {
      LineOfEncodeLines(prefix, offset);
      assert prefix[offset] == lines[offset];
      if !(|starts| > 0 && starts[|starts| - 1].lineNumber == lines[|lines| - 1]) {
        assert EncodeLines(lines)[..|starts|] == starts;
      }
    } else if |starts| > 0 && starts[|starts| - 1].lineNumber == lines[|lines| - 1] {
      assert starts[|starts| - 1].offset <= offset;
    }
  }

  /**
   * The sizes writeChunk works with. `lineStartsBlock` is the number of
   * line starts the allocated block holds, which C does not keep apart
   * from `lineStartsCapacity`.
   */
  datatype Sizes = Sizes(count: nat, capacity: nat, lineStartsCount: nat, lineStartsCapacity: nat, lineStartsBlock: nat)

  /** The sizes initChunk sets. */
  const InitialSizes := Sizes(0, 0, 0, 0, 0)

  /**
   * The size changes of writeChunk as written: when the line table
   * grows, the block is reallocated to the code capacity, not to the new
   * line table capacity. `newRun` says whether the byte starts a new line run.
   */
  function WriteSizesAsWritten(s: Sizes, newRun: bool): Sizes {
    var capacity := if s.capacity < s.count + 1 then GrowCapacity(s.capacity) else s.capacity;
    if !newRun then s.(count := s.count + 1, capacity := capacity)
    else if s.lineStartsCapacity < s.lineStartsCount + 1 then
      Sizes(s.count + 1, capacity, s.lineStartsCount + 1, GrowCapacity(s.lineStartsCapacity), capacity)
    else s.(count := s.count + 1, capacity := capacity, lineStartsCount := s.lineStartsCount + 1)
  }

  /** The same step, with the line table block reallocated to its own new capacity. */
  function WriteSizes(s: Sizes, newRun: bool): Sizes {
    var capacity := if s.capacity < s.count + 1 then GrowCapacity(s.capacity) else s.capacity;
    if !newRun then s.(count := s.count + 1, capacity := capacity)
    else if s.lineStartsCapacity < s.lineStartsCount + 1 then
      var lineStartsCapacity := GrowCapacity(s.lineStartsCapacity);
      Sizes(s.count + 1, capacity, s.lineStartsCount + 1, lineStartsCapacity, lineStartsCapacity)
    else s.(count := s.count + 1, capacity := capacity, lineStartsCount := s.lineStartsCount + 1)
  }

  function RunAsWritten(s: Sizes, runs: seq<bool>): Sizes
    decreases runs
  {
    if runs == [] then s else RunAsWritten(WriteSizesAsWritten(s, runs[0]), runs[1..])
  }

  function Run(s: Sizes, runs: seq<bool>): Sizes
    decreases runs
  {
    if runs == [] then s else Run(WriteSizes(s, runs[0]), runs[1..])
  }

  /** n writes that all start a new run (b) or all stay on the last run's line (!b). */
  function Repeat(b: bool, n: nat): seq<bool>
  {
    if n == 0 then [] else Repeat(b, n - 1) + [b]
  }

  /** Writes that fit the buffers as they are change only the counts. */
  lemma {:induction false} RunWithinCapacity(s: Sizes, b: bool, n: nat)
    requires s.count + n <= s.capacity && (b ==> s.lineStartsCount + n <= s.lineStartsCapacity)
    ensures RunAsWritten(s, Repeat(b, n))
      == s.(count := s.count + n, lineStartsCount := s.lineStartsCount + if b then n else 0)
    decreases n
  {
    if n > 0 {
      RunWithinCapacity(s, b, n - 1);
      SplitRunAsWritten(s, Repeat(b, n - 1), [b]);
    }
  }

  /**
   * Nine bytes on line 1 and then one byte on each of lines 2 to 9: as
   * written, the ninth line start grows the line table to 16 entries but
   * reallocates its block to the code capacity, 32 entries.
   */
  lemma AsWrittenBlockMismatch()
    ensures RunAsWritten(InitialSizes, [true] + Repeat(false, 8) + Repeat(true, 8)) == Sizes(17, 32, 9, 16, 32)
  {
    var s1, s8, s9, s16 := Sizes(1, 8, 1, 8, 8), Sizes(8, 8, 1, 8, 8), Sizes(9, 16, 1, 8, 8), Sizes(16, 16, 8, 8, 8);
    var sameLine, newLines := Repeat(false, 8), Repeat(true, 8);
    assert [true] + sameLine + newLines == [true] + (sameLine + newLines);
    SplitRunAsWritten(InitialSizes, [true], sameLine + newLines);
    assert RunAsWritten(InitialSizes, [true]) == s1;
    SplitRunAsWritten(s1, sameLine, newLines);
    RunWithinCapacity(s1, false, 7);
    SplitRunAsWritten(s1, Repeat(false, 7), [false]);
    assert RunAsWritten(s8, [false]) == s9;
    RunWithinCapacity(s9, true, 7);
    SplitRunAsWritten(s9, Repeat(true, 7), [true]);
    assert RunAsWritten(s16, [true]) == Sizes(17, 32, 9, 16, 32);
  }

  lemma {:induction false} SplitRunAsWritten(s: Sizes, a: seq<bool>, b: seq<bool>)
    ensures RunAsWritten(s, a + b) == RunAsWritten(RunAsWritten(s, a), b)
    decreases a
  {
    if a != [] {
      assert (a + b)[1..] == a[1..] + b;
      SplitRunAsWritten(WriteSizesAsWritten(s, a[0]), a[1..], b);
    } else {
      assert a + b == b;
    }
  }

  /** With the fix, the block always holds exactly the line table capacity. */
  lemma {:induction false} RunKeepsBlock(s: Sizes, runs: seq<bool>)
    requires s.lineStartsBlock == s.lineStartsCapacity
    ensures Run(s, runs).lineStartsBlock == Run(s, runs).lineStartsCapacity
    decreases runs
  {
    if runs != [] {
      RunKeepsBlock(WriteSizes(s, runs[0]), runs[1..]);
    }
  }

  /** Starting from initChunk's sizes, both capacities stay 0 or eight doubled: they only ever change by GROW_CAPACITY. */
  lemma {:induction false} RunKeepsCapacities(s: Sizes, runs: seq<bool>)
    requires IsBufferCapacity(s.capacity) && IsBufferCapacity(s.lineStartsCapacity)
    ensures IsBufferCapacity(Run(s, runs).capacity) && IsBufferCapacity(Run(s, runs).lineStartsCapacity)
    decreases runs
  {
    if runs != [] {
      RunKeepsCapacities(WriteSizes(s, runs[0]), runs[1..]);
    }
  }

  /**
   * The invariant of a chunk's fields: the live prefixes fit their
   * buffers, the line table is
   * the encoding of the lines written, and the line table block holds
   * as many starts as its capacity says.
   */
  ghost predicate ChunkState(count: nat, capacity: nat, code: seq<bv8>, lines: seq<int>,
                             lineStartsCount: nat, lineStartsCapacity: nat, lineStarts: seq<LineStart>, lineStartsBlock: nat)
  {
    count == |code| == |lines| <= capacity
    && lineStartsCount == |lineStarts| <= lineStartsCapacity
    && lineStarts == EncodeLines(lines)
    && lineStartsBlock == lineStartsCapacity
  }

  /** writeChunk on the last run's line: the byte joins that run, and the invariant is kept. */
  lemma WriteSameLine(count: nat, capacity: nat, code: seq<bv8>, lines: seq<int>,
                      lineStartsCount: nat, lineStartsCapacity: nat, lineStarts: seq<LineStart>, lineStartsBlock: nat,
                      byte: bv8, lineNumber: int, capacity': nat)
    requires ChunkState(count, capacity, code, lines, lineStartsCount, lineStartsCapacity, lineStarts, lineStartsBlock)
    requires lineStartsCount > 0 && lineStarts[lineStartsCount - 1].lineNumber == lineNumber
    requires capacity' == if capacity < count + 1 then GrowCapacity(capacity) else capacity
    ensures ChunkState(count + 1, capacity', code + [byte], lines + [lineNumber], lineStartsCount, lineStartsCapacity, lineStarts, lineStartsBlock)
    ensures WriteSizes(Sizes(count, capacity, lineStartsCount, lineStartsCapacity, lineStartsBlock), false)
      == Sizes(count + 1, capacity', lineStartsCount, lineStartsCapacity, lineStartsBlock)
  {
    EncodeLinesSnoc(lines, lineNumber);
  }

  /** writeChunk on any other line: a new run starts at the byte, and the invariant is kept. */
  lemma WriteStartsRun(count: nat, capacity: nat, code: seq<bv8>, lines: seq<int>,
                    lineStartsCount: nat, lineStartsCapacity: nat, lineStarts: seq<LineStart>, lineStartsBlock: nat,
                    byte: bv8, lineNumber: int, capacity': nat, lineStartsCapacity': nat)
    requires ChunkState(count, capacity, code, lines, lineStartsCount, lineStartsCapacity, lineStarts, lineStartsBlock)
    requires !(lineStartsCount > 0 && lineStarts[lineStartsCount - 1].lineNumber == lineNumber)
    requires capacity' == if capacity < count + 1 then GrowCapacity(capacity) else capacity
    requires lineStartsCapacity' == if lineStartsCapacity < lineStartsCount + 1 then GrowCapacity(lineStartsCapacity) else lineStartsCapacity
    ensures ChunkState(count + 1, capacity', code + [byte], lines + [lineNumber], lineStartsCount + 1, lineStartsCapacity',
                       lineStarts + [LineStart(lineNumber, count)], lineStartsCapacity')
    ensures WriteSizes(Sizes(count, capacity, lineStartsCount, lineStartsCapacity, lineStartsBlock), true)
      == Sizes(count + 1, capacity', lineStartsCount + 1, lineStartsCapacity', lineStartsCapacity')
  {
    EncodeLinesSnoc(lines, lineNumber);
  }

  /**
   * A chunk. `code` and `lineStarts` are the live prefixes of their
   * buffers; `lines` is the line each byte was written with, which the
   * chunk stores only through its run-length encoding.
   */
  class Chunk {
    var count: nat
    var capacity: nat
    var code: seq<bv8>
    var lineStartsCount: nat
    var lineStartsCapacity: nat
    var lineStarts: seq<LineStart>
    ghost var lineStartsBlock: nat
    ghost var lines: seq<int>
    const constants: ValueArray

    ghost predicate Valid()
      reads this, constants
    {
      ChunkState(count, capacity, code, lines, lineStartsCount, lineStartsCapacity, lineStarts, lineStartsBlock)
      && constants.Valid()
    }

    ghost function SizesOf(): Sizes
      reads this
    {
      Sizes(count, capacity, lineStartsCount, lineStartsCapacity, lineStartsBlock)
    }

    /** initChunk on fresh storage. */
    constructor ()
      ensures Valid() && fresh(constants)
      ensures code == [] && lines == [] && constants.values == [] && SizesOf() == InitialSizes
    {
      count, capacity, code := 0, 0, [];
      lineStartsCount, lineStartsCapacity, lineStarts := 0, 0, [];
      lineStartsBlock, lines := 0, [];
      constants := new ValueArray();
    }

    /**
     * writeChunk: append a byte from source line `lineNumber`, growing the
     * code buffer when full, and start a new line run unless the byte is on
     * the line of the last run.
     */
    method Write(byte: bv8, lineNumber: int)
      requires Valid()
      modifies this
      ensures Valid()
      ensures code == old(code) + [byte] && lines == old(lines) + [lineNumber]
      ensures SizesOf() == WriteSizes(old(SizesOf()), !(old(lineStartsCount) > 0 && old(lineStarts)[old(lineStartsCount) - 1].lineNumber == lineNumber))
    {
      if lineStartsCount > 0 && lineStarts[lineStartsCount - 1].lineNumber == lineNumber {
        WriteToRun(byte, lineNumber);
      } else {
        WriteNewRun(byte, lineNumber);
      }
    }

    /** writeChunk's early return: the byte is on the last run's line. */
    method WriteToRun(byte: bv8, lineNumber: int)
      requires Valid() && lineStartsCount > 0 && lineStarts[lineStartsCount - 1].lineNumber == lineNumber
      modifies this
      ensures Valid()
      ensures code == old(code) + [byte] && lines == old(lines) + [lineNumber]
      ensures SizesOf() == WriteSizes(old(SizesOf()), false)
    {
      var newCapacity := if capacity < count + 1 then GrowCapacity(capacity) else capacity;
      WriteSameLine(count, capacity, code, lines, lineStartsCount, lineStartsCapacity, lineStarts, lineStartsBlock, byte, lineNumber, newCapacity);
      code, count, capacity, lines := code + [byte], count + 1, newCapacity, lines + [lineNumber];
    }

    /** writeChunk's full path: the byte starts a new line run, growing the line table when full. */
    method WriteNewRun(byte: bv8, lineNumber: int)
      requires Valid() && !(lineStartsCount > 0 && lineStarts[lineStartsCount - 1].lineNumber == lineNumber)
      modifies this
      ensures Valid()
      ensures code == old(code) + [byte] && lines == old(lines) + [lineNumber]
      ensures SizesOf() == WriteSizes(old(SizesOf()), true)
    {
      var newCapacity := if capacity < count + 1 then GrowCapacity(capacity) else capacity;
      var newLineStartsCapacity := if lineStartsCapacity < lineStartsCount + 1 then GrowCapacity(lineStartsCapacity) else lineStartsCapacity;
      WriteStartsRun(count, capacity, code, lines, lineStartsCount, lineStartsCapacity, lineStarts, lineStartsBlock,
                     byte, lineNumber, newCapacity, newLineStartsCapacity);
      lineStarts, lineStartsCount := lineStarts + [LineStart(lineNumber, count)], lineStartsCount + 1;
      lineStartsCapacity, lineStartsBlock := newLineStartsCapacity, newLineStartsCapacity;
      code, count, capacity, lines := code + [byte], count + 1, newCapacity, lines + [lineNumber];
    }

    /** In a valid chunk, the line table gives back the line of every byte. */
    lemma LinesRecovered()
      requires Valid()
      ensures forall i :: 0 <= i < count ==> LineOf(lineStarts, i) == lines[i]
    {
      DecodeAll(lines);
    }

    /** addConstant: append to the constant pool and return the new constant's index. */
    method AddConstant(value: Value) returns (index: int)
      requires Valid()
      modifies constants
      ensures Valid()
      ensures constants.values == old(constants.values) + [value]
      ensures index == |old(constants.values)| && constants.values[index] == value
    {
      constants.Write(value);
      index := constants.count - 1;
    }

    /** freeChunk: release all three buffers and start over empty. */
    method Free()
      requires Valid()
      modifies this, constants
      ensures Valid() && code == [] && lines == [] && constants.values == [] && SizesOf() == InitialSizes
    {
      constants.Free();
      count, capacity, code := 0, 0, [];
      lineStartsCount, lineStartsCapacity, lineStarts := 0, 0, [];
      lineStartsBlock, lines := 0, [];
    }
  }
}
