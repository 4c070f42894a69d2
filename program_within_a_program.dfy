/**
 * The Program Within a Program judge (Code Jam 2011, world finals).  A
 * contestant writes, per case, a table of robot instructions
 * (state, tape value) -> (action, new state, new tape value); the judge
 * parses the tables and runs the robot on an all-zero tape until it stops,
 * checking where it stops.
 */
module ProgramWithinAProgram {
  import opened Wrappers
  import opened JudgeUtils

  /** 'w' moves one cell west, 'e' one cell east, 'r' stops the robot. */
  datatype Action = West | East | Stop

  datatype Instruction = Instruction(action: Action, state: int, tape: int)

  /** The instruction table of one case, keyed by (state, tape value). */
  type Program = map<(int, int), Instruction>

  /** What the parser lets into a table: memory values in range, and (0, 0) after a stop. */
  predicate ValidEntry(key: (int, int), ins: Instruction, lo: int, hi: int)
  {
    lo <= key.0 <= hi && lo <= key.1 <= hi
    && if ins.action == Stop then ins.state == 0 && ins.tape == 0
       else lo <= ins.state <= hi && lo <= ins.tape <= hi
  }

  predicate ValidProgram(p: Program, maxInstructions: int, lo: int, hi: int)
  {
    |p| <= maxInstructions && forall key | key in p :: ValidEntry(key, p[key], lo, hi)
  }

  // ---------------------------------------------------------------------
  // One instruction line
  // ---------------------------------------------------------------------

  function ParseAction(t: string): (a: Option<Action>)
    ensures a.Some? <==> t == "w" || t == "e" || t == "r"
  {
    if t == "w" then Some(West) else if t == "e" then Some(East) else if t == "r" then Some(Stop) else None
  }

  function ActionToken(a: Action): string
  {
    match a
    case West => "w"
    case East => "e"
    case Stop => "r"
  }

  /** Why an output is rejected; line numbers count from 1. */
  datatype ParseError =
    | EndedBeforeCase(caseNumber: int)
    | CountLineTokens(line: int)
    | BadCaseNumber(line: int)
    | BadCount(line: int)
    | EndedInCase(caseNumber: int)
    | InstructionTokens(line: int)
    | MissingArrow(line: int)
    | BadAction(line: int)
    | BadMemoryValue(line: int)
    | DuplicateInstruction(line: int)
    | ExcessOutput(line: int)

  /** The judge's message for each rejection. */
  function Message(e: ParseError): string
  {
    match e
    case EndedBeforeCase(c) => "Output ended before case #" + Decimal(c)
    case CountLineTokens(l) => "Wrong number of tokens on count line #" + Decimal(l)
    case BadCaseNumber(l) => "Badly formatted case number on line #" + Decimal(l)
    case BadCount(l) => "Invalid instruction count on line #" + Decimal(l)
    case EndedInCase(c) => "Output ended in the middle of case #" + Decimal(c)
    case InstructionTokens(l) => "Wrong number of tokens on instruction line #" + Decimal(l)
    case MissingArrow(l) => "Missing -> token on line #" + Decimal(l)
    case BadAction(l) => "Invalid action on line #" + Decimal(l)
    case BadMemoryValue(l) => "Invalid memory value on line #" + Decimal(l)
    case DuplicateInstruction(l) => "Duplicate instruction on line #" + Decimal(l)
    case ExcessOutput(l) => "Excess output starting on line #" + Decimal(l)
  }

  function MemoryValue(t: string, lo: int, hi: int): Option<int>
  {
    ToInteger(t, Some(lo), Some(hi))
  }

  /**
   * One instruction line, numbered lineNumber (1-based), with the checks in
   * the order the judge makes them: token count, the arrow, the action,
   * the token count the action needs, then the memory values.
   */
  function ParseLine(line: seq<string>, lo: int, hi: int, lineNumber: int): (r: Result<((int, int), Instruction), ParseError>)
    ensures r.Ok? ==> ValidEntry(r.value.0, r.value.1, lo, hi)
    ensures |line| != 4 && |line| != 6 ==> r == Err(InstructionTokens(lineNumber))
  {
    if |line| != 4 && |line| != 6 then Err(InstructionTokens(lineNumber))
    else if line[2] != "->" then Err(MissingArrow(lineNumber))
    else match ParseAction(line[3])
      case None => Err(BadAction(lineNumber))
      case Some(action) =>
        if (action == Stop && |line| != 4) || (action != Stop && |line| != 6) then
          Err(InstructionTokens(lineNumber))
        else
          var state := MemoryValue(line[0], lo, hi);
          var tape := MemoryValue(line[1], lo, hi);
          var state2 := if action == Stop then Some(0) else MemoryValue(line[4], lo, hi);
          var tape2 := if action == Stop then Some(0) else MemoryValue(line[5], lo, hi);
          if state.None? || tape.None? || state2.None? || tape2.None? then
            Err(BadMemoryValue(lineNumber))
          else
            Ok(((state.value, tape.value), Instruction(action, state2.value, tape2.value)))
  }

  /** An accepted line is "s t -> a" for a stop and "s t -> a s' t'" otherwise. */
  lemma ParseLineAccepted(line: seq<string>, lo: int, hi: int, lineNumber: int)
    requires ParseLine(line, lo, hi, lineNumber).Ok?
    ensures var ins := ParseLine(line, lo, hi, lineNumber).value.1;
      line[2] == "->" && line[3] == ActionToken(ins.action) && |line| == if ins.action == Stop then 4 else 6
  {
  }

  /** The line a contestant would write for one table entry. */
  function ShowLine(key: (int, int), ins: Instruction): seq<string>
  {
    [Decimal(key.0), Decimal(key.1), "->", ActionToken(ins.action)]
    + if ins.action == Stop then [] else [Decimal(ins.state), Decimal(ins.tape)]
  }

  lemma MemoryValueShown(v: int, lo: int, hi: int)
    requires lo <= v <= hi
    ensures MemoryValue(Decimal(v), lo, hi) == Some(v)
  {
    ToIntegerAccepts(Decimal(v), Some(lo), Some(hi), v);
  }

  /** Every valid entry, written out, reads back as itself. */
  lemma ParseShowLine(key: (int, int), ins: Instruction, lo: int, hi: int, lineNumber: int)
    requires ValidEntry(key, ins, lo, hi)
    ensures ParseLine(ShowLine(key, ins), lo, hi, lineNumber) == Ok((key, ins))
  {
    MemoryValueShown(key.0, lo, hi);
    MemoryValueShown(key.1, lo, hi);
    if ins.action != Stop {
      MemoryValueShown(ins.state, lo, hi);
      MemoryValueShown(ins.tape, lo, hi);
    }
  }

  // ---------------------------------------------------------------------
  // One case's table
  // ---------------------------------------------------------------------

  type Entry = ((int, int), Instruction)

  /** Each instruction line parsed on its own; line k is output line first + k + 1. */
  function ParsedLines(lines: seq<seq<string>>, first: int, lo: int, hi: int): (ps: seq<Result<Entry, ParseError>>)
    ensures |ps| == |lines|
    ensures forall k | 0 <= k < |lines| :: ps[k] == ParseLine(lines[k], lo, hi, first + k + 1)
  {
    seq(|lines|, k requires 0 <= k < |lines| => ParseLine(lines[k], lo, hi, first + k + 1))
  }

  /**
   * Parsed lines gathered into a table in order: the first bad line, or the
   * first key given a second time, is the error.
   */
  function Collect(ps: seq<Result<Entry, ParseError>>, first: int): (r: Result<Program, ParseError>)
    ensures r.Ok? ==> |r.value| == |ps|
  {
    if ps == [] then Ok(map[])
    else
      var k := |ps| - 1;
      match Collect(ps[..k], first)
      case Err(e) => Err(e)
      case Ok(table) =>
        match ps[k]
        case Err(e) => Err(e)
        case Ok(entry) =>
          if entry.0 in table then Err(DuplicateInstruction(first + k + 1))
          else Ok(table[entry.0 := entry.1])
  }

  /**
   * The instruction lines of one case, the first of which is output line
   * first + 1, read into a table with one entry per line.
   */
  function ReadTable(lines: seq<seq<string>>, first: int, lo: int, hi: int): (r: Result<Program, ParseError>)
  {
    Collect(ParsedLines(lines, first, lo, hi), first)
  }

  /** One more parsed line: the table grows by its entry, or the line's error is the result. */
  lemma CollectStep(ps: seq<Result<Entry, ParseError>>, first: int, k: nat, table: Program)
    requires k < |ps| && Collect(ps[..k], first) == Ok(table)
    ensures ps[k].Err? ==> Collect(ps[..k + 1], first) == Err(ps[k].error)
    ensures ps[k].Ok? && ps[k].value.0 in table ==> Collect(ps[..k + 1], first) == Err(DuplicateInstruction(first + k + 1))
    ensures ps[k].Ok? && ps[k].value.0 !in table ==> Collect(ps[..k + 1], first) == Ok(table[ps[k].value.0 := ps[k].value.1])
  {
    assert ps[..k + 1][..k] == ps[..k];
  }

  /** The first bad line decides the error: later lines do not change it. */
  lemma {:induction false} CollectErrorStays(ps: seq<Result<Entry, ParseError>>, first: int, i: nat)
    requires i <= |ps| && Collect(ps[..i], first).Err?
    ensures Collect(ps, first) == Collect(ps[..i], first)
    decreases |ps|
  {
    if i == |ps| {
      assert ps[..i] == ps;
    } else {
      var prefix := ps[..|ps| - 1];
      assert prefix[..i] == ps[..i];
      CollectErrorStays(prefix, first, i);
    }
  }

  /** Every entry of a gathered table comes from a line that passed the line checks. */
  lemma {:induction false} CollectValid(ps: seq<Result<Entry, ParseError>>, first: int, lo: int, hi: int)
    requires forall k | 0 <= k < |ps| :: ps[k].Ok? ==> ValidEntry(ps[k].value.0, ps[k].value.1, lo, hi)
    requires Collect(ps, first).Ok?
    ensures forall key | key in Collect(ps, first).value :: ValidEntry(key, Collect(ps, first).value[key], lo, hi)
    decreases |ps|
  {
    if ps != [] {
      var k := |ps| - 1;
      assert forall t | 0 <= t < k :: ps[..k][t] == ps[t];
      CollectValid(ps[..k], first, lo, hi);
    }
  }

  /** Every entry of a table that was read passed the line checks: memory values in range. */
  lemma ReadTableValid(lines: seq<seq<string>>, first: int, lo: int, hi: int)
    requires ReadTable(lines, first, lo, hi).Ok?
    ensures forall key | key in ReadTable(lines, first, lo, hi).value ::
      ValidEntry(key, ReadTable(lines, first, lo, hi).value[key], lo, hi)
  {
    CollectValid(ParsedLines(lines, first, lo, hi), first, lo, hi);
  }

  /** The table of a list of entries, later entries shadowing earlier ones. */
  function TableOf(entries: seq<Entry>): (p: Program)
    ensures forall key | key in p :: exists t | 0 <= t < |entries| :: entries[t] == (key, p[key])
  {
    if entries == [] then map[]
    else
      var k := |entries| - 1;
      var p := TableOf(entries[..k]);
      var p' := p[entries[k].0 := entries[k].1];
      assert forall key | key in p :: exists t | 0 <= t < k :: entries[..k][t] == (key, p[key]);
      p'
  }

  predicate DistinctKeys(entries: seq<Entry>)
  {
    forall s, t | 0 <= s < t < |entries| :: entries[s].0 != entries[t].0
  }

  predicate ValidEntries(entries: seq<Entry>, lo: int, hi: int)
  {
    forall t | 0 <= t < |entries| :: ValidEntry(entries[t].0, entries[t].1, lo, hi)
  }

  /** The lines a contestant would write for a list of entries. */
  function ShowLines(entries: seq<Entry>): (lines: seq<seq<string>>)
    ensures |lines| == |entries|
  {
    seq(|entries|, k requires 0 <= k < |entries| => ShowLine(entries[k].0, entries[k].1))
  }

  /** A key that no earlier entry has is not in their table. */
  lemma FreshKey(entries: seq<Entry>)
    requires entries != [] && DistinctKeys(entries)
    ensures entries[|entries| - 1].0 !in TableOf(entries[..|entries| - 1])
  {
    var k := |entries| - 1;
    forall t | 0 <= t < k ensures entries[..k][t].0 != entries[k].0 {
      assert entries[..k][t] == entries[t];
    }
  }

  /** Lines that parse as entries with distinct keys gather into the table of those entries. */
  lemma {:induction false} CollectDistinct(ps: seq<Result<Entry, ParseError>>, entries: seq<Entry>, first: int)
    requires |ps| == |entries| && DistinctKeys(entries)
    requires forall k | 0 <= k < |ps| :: ps[k] == Ok(entries[k])
    ensures Collect(ps, first) == Ok(TableOf(entries))
    decreases |ps|
  {
    if ps != [] {
      var k := |ps| - 1;
      assert forall t | 0 <= t < k :: ps[..k][t] == ps[t] && entries[..k][t] == entries[t];
      CollectDistinct(ps[..k], entries[..k], first);
      FreshKey(entries);
    }
  }

  /** Valid entries with distinct keys, written out, read back as their table. */
  lemma ReadShowLines(lines: seq<seq<string>>, entries: seq<Entry>, first: int, lo: int, hi: int)
    requires lines == ShowLines(entries) && DistinctKeys(entries) && ValidEntries(entries, lo, hi)
    ensures ReadTable(lines, first, lo, hi) == Ok(TableOf(entries))
  {
    var ps := ParsedLines(lines, first, lo, hi);
    forall k | 0 <= k < |ps| ensures ps[k] == Ok(entries[k]) {
      ParseShowLine(entries[k].0, entries[k].1, lo, hi, first + k + 1);
    }
    CollectDistinct(ps, entries, first);
  }

  // ---------------------------------------------------------------------
  // The whole output
  // ---------------------------------------------------------------------

  function CaseLabel(caseNumber: int): string
  {
    "#" + Decimal(caseNumber) + ":"
  }

  /**
   * The count line of case caseNumber, output line at + 1: "case #c: n",
   * with n from 0 to maxInstructions.
   */
  function ReadCount(tokens: seq<seq<string>>, at: nat, caseNumber: int, maxInstructions: int): (r: Result<nat, ParseError>)
    ensures r.Ok? ==> r.value <= maxInstructions
  {
    if at >= |tokens| then Err(EndedBeforeCase(caseNumber))
    else if |tokens[at]| != 3 then Err(CountLineTokens(at + 1))
    else if tokens[at][0] != "case" || tokens[at][1] != CaseLabel(caseNumber) then Err(BadCaseNumber(at + 1))
    else match ToInteger(tokens[at][2], Some(0), Some(maxInstructions))
      case None => Err(BadCount(at + 1))
      case Some(count) => Ok(count)
  }

  /** A count line is accepted exactly when it reads "case #c: n" with n a count from 0 to maxInstructions. */
  lemma ReadCountOk(tokens: seq<seq<string>>, at: nat, caseNumber: int, maxInstructions: int)
    ensures ReadCount(tokens, at, caseNumber, maxInstructions).Ok? <==> (at < |tokens| && |tokens[at]| == 3
      && tokens[at][0] == "case" && tokens[at][1] == CaseLabel(caseNumber)
      && ToInteger(tokens[at][2], Some(0), Some(maxInstructions)).Some?)
    ensures ReadCount(tokens, at, caseNumber, maxInstructions).Ok? ==>
      ToInteger(tokens[at][2], Some(0), Some(maxInstructions)) == Some(ReadCount(tokens, at, caseNumber, maxInstructions).value)
  {
  }

  /**
   * Case caseNumber, whose count line is output line at + 1: its table, and
   * the index of the line after it.
   */
  function ReadCase(tokens: seq<seq<string>>, at: nat, caseNumber: int, maxInstructions: int, lo: int, hi: int)
    : (r: Result<(Program, nat), ParseError>)
    ensures r.Ok? ==> at < r.value.1 <= |tokens| && r.value.1 == at + 1 + |r.value.0|
  {
    match ReadCount(tokens, at, caseNumber, maxInstructions)
    case Err(e) => Err(e)
    case Ok(count) =>
      if at + 1 + count > |tokens| then Err(EndedInCase(caseNumber))
      else match ReadTable(tokens[at + 1..at + 1 + count], at + 1, lo, hi)
        case Err(e) => Err(e)
        case Ok(table) => Ok((table, at + 1 + count))
  }

  /** A case that was read has a valid table of at most maxInstructions entries. */
  lemma ReadCaseValid(tokens: seq<seq<string>>, at: nat, caseNumber: int, maxInstructions: int, lo: int, hi: int)
    requires ReadCase(tokens, at, caseNumber, maxInstructions, lo, hi).Ok?
    ensures ValidProgram(ReadCase(tokens, at, caseNumber, maxInstructions, lo, hi).value.0, maxInstructions, lo, hi)
  {
    var count := ReadCount(tokens, at, caseNumber, maxInstructions).value;
    ReadTableValid(tokens[at + 1..at + 1 + count], at + 1, lo, hi);
  }

  /** The number of instructions in a list of tables. */
  function TotalSize(programs: seq<Program>): nat
  {
    if programs == [] then 0 else TotalSize(programs[..|programs| - 1]) + |programs[|programs| - 1]|
  }

  /** The first c cases: their tables, and the index of the line after them. */
  function ReadCases(tokens: seq<seq<string>>, c: nat, maxInstructions: int, lo: int, hi: int)
    : (r: Result<(seq<Program>, nat), ParseError>)
    ensures r.Ok? ==> |r.value.0| == c && r.value.1 <= |tokens| && r.value.1 == c + TotalSize(r.value.0)
  {
    if c == 0 then Ok(([], 0))
    else match ReadCases(tokens, c - 1, maxInstructions, lo, hi)
      case Err(e) => Err(e)
      case Ok((programs, at)) =>
        match ReadCase(tokens, at, c, maxInstructions, lo, hi)
        case Err(e) => Err(e)
        case Ok((p, next)) =>
          assert (programs + [p])[..c - 1] == programs;
          Ok((programs + [p], next))
  }

  lemma {:induction false} CasesErrorStays(tokens: seq<seq<string>>, c: nat, d: nat, maxInstructions: int, lo: int, hi: int)
    requires c <= d && ReadCases(tokens, c, maxInstructions, lo, hi).Err?
    ensures ReadCases(tokens, d, maxInstructions, lo, hi) == ReadCases(tokens, c, maxInstructions, lo, hi)
    decreases d
  {
    if c < d {
      CasesErrorStays(tokens, c, d - 1, maxInstructions, lo, hi);
    }
  }

  /**
   * The whole output, already split into lower-case tokens per line: one
   * table per case, or the first error.  An accepted output has a valid
   * table per case and no line besides one count line per case and one
   * line per instruction.
   */
  function Parse(tokens: seq<seq<string>>, numCases: nat, maxInstructions: int, lo: int, hi: int)
    : (r: Result<seq<Program>, ParseError>)
    ensures r.Ok? ==> |r.value| == numCases && |tokens| == numCases + TotalSize(r.value)
  {
    match ReadCases(tokens, numCases, maxInstructions, lo, hi)
    case Err(e) => Err(e)
    case Ok((programs, at)) =>
      if at < |tokens| then Err(ExcessOutput(at + 1)) else Ok(programs)
  }

  /** Every case read so far has a valid table. */
  lemma {:induction false} ReadCasesValid(tokens: seq<seq<string>>, c: nat, maxInstructions: int, lo: int, hi: int)
    requires ReadCases(tokens, c, maxInstructions, lo, hi).Ok?
    ensures forall t | 0 <= t < c :: ValidProgram(ReadCases(tokens, c, maxInstructions, lo, hi).value.0[t], maxInstructions, lo, hi)
  {
    if c > 0 {
      ReadCasesValid(tokens, c - 1, maxInstructions, lo, hi);
      var (programs, at) := ReadCases(tokens, c - 1, maxInstructions, lo, hi).value;
      ReadCaseValid(tokens, at, c, maxInstructions, lo, hi);
    }
  }

  /** An accepted output has a valid table, of at most maxInstructions entries, per case. */
  lemma ParseValid(tokens: seq<seq<string>>, numCases: nat, maxInstructions: int, lo: int, hi: int)
    requires Parse(tokens, numCases, maxInstructions, lo, hi).Ok?
    ensures forall t | 0 <= t < numCases :: ValidProgram(Parse(tokens, numCases, maxInstructions, lo, hi).value[t], maxInstructions, lo, hi)
  {
    ReadCasesValid(tokens, numCases, maxInstructions, lo, hi);
  }

  /** The count line of case caseNumber, holding n instructions. */
  function CountLine(caseNumber: int, n: int): seq<string>
  {
    ["case", CaseLabel(caseNumber), Decimal(n)]
  }

  /** A written count line reads back as its count. */
  lemma ReadShownCount(tokens: seq<seq<string>>, at: nat, caseNumber: int, maxInstructions: int, n: nat)
    requires at < |tokens| && tokens[at] == CountLine(caseNumber, n) && n <= maxInstructions
    ensures ReadCount(tokens, at, caseNumber, maxInstructions) == Ok(n)
  {
    ToIntegerAccepts(Decimal(n), Some(0), Some(maxInstructions), n);
  }

  /** One parsed line added to the table: its error, a duplicate key, or the grown table. */
  method AddEntry(ghost ps: seq<Result<Entry, ParseError>>, first: int, k: nat, table: Program,
                  parsed: Result<Entry, ParseError>, lineNumber: int) returns (r: Result<Program, ParseError>)
    requires k < |ps| && Collect(ps[..k], first) == Ok(table) && parsed == ps[k] && lineNumber == first + k + 1
    ensures r == Collect(ps[..k + 1], first)
  {
    CollectStep(ps, first, k, table);
    if parsed.Err? {
      return Err(parsed.error);
    }
    var (key, ins) := parsed.value;
    if key in table {
      return Err(DuplicateInstruction(lineNumber));
    }
    return Ok(table[key := ins]);
  }

  /** The instruction lines of one case, as the judge's inner loop reads them. */
  method ReadInstructions(lines: seq<seq<string>>, first: int, lo: int, hi: int) returns (r: Result<Program, ParseError>)
    ensures r == ReadTable(lines, first, lo, hi)
  {
    ghost var ps := ParsedLines(lines, first, lo, hi);
    var table: Program := map[];
    var lineNumber := first;
    for k := 0 to |lines|
      invariant lineNumber == first + k
      invariant Collect(ps[..k], first) == Ok(table)
    {
      var parsed := ParseLine(lines[k], lo, hi, lineNumber + 1);
      assert parsed == ps[k];
      var added := AddEntry(ps, first, k, table, parsed, lineNumber + 1);
      if added.Err? {
        CollectErrorStays(ps, first, k + 1);
        return Err(added.error);
      }
      table := added.value;
      lineNumber := lineNumber + 1;
    }
    assert ps[..|lines|] == ps;
    return Ok(table);
  }

  /** What the judge reports for a parse: the tables, or the message of the first error. */
  function Report(r: Result<seq<Program>, ParseError>): Result<seq<Program>, string>
  {
    match r
    case Ok(programs) => Ok(programs)
    case Err(e) => Err(Message(e))
  }

  /** One pass of the judge's outer loop: the count line of case caseNumber, then its instruction lines. */
  method ReadOneCase(tokens: seq<seq<string>>, at: nat, caseNumber: int, maxInstructions: int, lo: int, hi: int)
    returns (r: Result<(Program, nat), ParseError>)
    ensures r == ReadCase(tokens, at, caseNumber, maxInstructions, lo, hi)
  {
    var count := ReadCount(tokens, at, caseNumber, maxInstructions);
    if count.Err? {
      return Err(count.error);
    }
    var start := at + 1;
    if start + count.value > |tokens| {
      return Err(EndedInCase(caseNumber));
    }
    var table := ReadInstructions(tokens[start..start + count.value], start, lo, hi);
    if table.Err? {
      return Err(table.error);
    }
    return Ok((table.value, start + count.value));
  }

  /** The judge's parser: reads the cases one after the other, then rejects leftover lines. */
  method ParseAttempt(tokens: seq<seq<string>>, numCases: nat, maxInstructions: int, lo: int, hi: int)
    returns (r: Result<seq<Program>, string>)
    ensures r == Report(Parse(tokens, numCases, maxInstructions, lo, hi))
  {
    var tableList: seq<Program> := [];
    var lineNumber: nat := 0;
    for testCase := 1 to numCases + 1
      invariant ReadCases(tokens, testCase - 1, maxInstructions, lo, hi) == Ok((tableList, lineNumber))
    {
      var next := ReadOneCase(tokens, lineNumber, testCase, maxInstructions, lo, hi);
      if next.Err? {
        CasesErrorStays(tokens, testCase, numCases, maxInstructions, lo, hi);
        return Err(Message(next.error));
      }
      tableList := tableList + [next.value.0];
      lineNumber := next.value.1;
    }
    if lineNumber < |tokens| {
      return Err(Message(ExcessOutput(lineNumber + 1)));
    }
    return Ok(tableList);
  }

  // ---------------------------------------------------------------------
  // Running the robot
  // ---------------------------------------------------------------------

  /** The tape (cells never written hold 0), the robot's position and its state. */
  datatype Config = Config(tape: map<int, int>, position: int, state: int)

  const Start := Config(map[], 0, 0)

  function ReadCell(c: Config): int
  {
    if c.position in c.tape then c.tape[c.position] else 0
  }

  datatype StepResult = Halted(position: int) | Missing(state: int, tape: int) | Moved(next: Config)

  /** One move: look up (state, cell), write the new cell value, then stop or move. */
  function Step(prog: Program, c: Config): (s: StepResult)
    ensures s.Missing? <==> (c.state, ReadCell(c)) !in prog
    ensures s.Missing? ==> s == Missing(c.state, ReadCell(c))
    ensures s.Halted? <==> (c.state, ReadCell(c)) in prog && prog[(c.state, ReadCell(c))].action == Stop
    ensures s.Halted? ==> s.position == c.position
    ensures s.Moved? ==>
      var ins := prog[(c.state, ReadCell(c))];
      s.next.tape == c.tape[c.position := ins.tape] && s.next.state == ins.state
      && s.next.position == if ins.action == West then c.position - 1 else c.position + 1
  {
    var key := (c.state, ReadCell(c));
    if key !in prog then Missing(key.0, key.1)
    else
      var ins := prog[key];
      var tape := c.tape[c.position := ins.tape];
      match ins.action
      case Stop => Halted(c.position)
      case West => Moved(Config(tape, c.position - 1, ins.state))
      case East => Moved(Config(tape, c.position + 1, ins.state))
  }

  datatype Outcome = Stopped(position: int) | NoInstruction(state: int, tape: int) | TooManyMoves

  /** At most `moves` moves from c, the stop counting as one. */
  function Run(prog: Program, c: Config, moves: int): Outcome
    decreases moves
  {
    if moves <= 0 then TooManyMoves
    else match Step(prog, c)
      case Halted(p) => Stopped(p)
      case Missing(s, t) => NoInstruction(s, t)
      case Moved(next) => Run(prog, next, moves - 1)
  }

  /** The configuration after k moves from c, when the robot gets that far. */
  function After(prog: Program, c: Config, k: nat): Option<Config>
  {
    if k == 0 then Some(c)
    else match After(prog, c, k - 1)
      case None => None
      case Some(d) => if Step(prog, d).Moved? then Some(Step(prog, d).next) else None
  }

  /** Running k moves that the robot makes leaves a run from where it got to. */
  lemma {:induction false} RunAfter(prog: Program, c: Config, k: nat, moves: int)
    requires After(prog, c, k).Some? && k <= moves
    ensures Run(prog, c, moves) == Run(prog, After(prog, c, k).value, moves - k)
    decreases k
  {
    if k > 0 {
      RunAfter(prog, c, k - 1, moves);
    }
  }

  /** The robot stops at p within `moves` moves iff it gets to a configuration that stops there. */
  lemma {:induction false} RunStopsIff(prog: Program, c: Config, moves: int, p: int)
    ensures Run(prog, c, moves) == Stopped(p) <==>
      exists k: nat | k < moves :: After(prog, c, k).Some? && Step(prog, After(prog, c, k).value) == Halted(p)
    decreases moves
  {
    if Run(prog, c, moves) == Stopped(p) {
      StopWitness(prog, c, moves, p);
    }
    if exists k: nat | k < moves :: After(prog, c, k).Some? && Step(prog, After(prog, c, k).value) == Halted(p) {
      var k: nat :| k < moves && After(prog, c, k).Some? && Step(prog, After(prog, c, k).value) == Halted(p);
      RunAfter(prog, c, k, moves);
    }
  }

  lemma {:induction false} StopWitness(prog: Program, c: Config, moves: int, p: int)
    requires Run(prog, c, moves) == Stopped(p)
    ensures exists k: nat | k < moves :: After(prog, c, k).Some? && Step(prog, After(prog, c, k).value) == Halted(p)
    decreases moves
  {
    match Step(prog, c)
    case Halted(_) =>
      assert After(prog, c, 0) == Some(c);
    case Moved(next) =>
      StopWitness(prog, next, moves - 1, p);
      var k: nat :| k < moves - 1 && After(prog, next, k).Some? && Step(prog, After(prog, next, k).value) == Halted(p);
      AfterFirst(prog, c, k);
  }

  /** k + 1 moves from c are the first move followed by k more. */
  lemma {:induction false} AfterFirst(prog: Program, c: Config, k: nat)
    requires Step(prog, c).Moved?
    ensures After(prog, c, k + 1) == After(prog, Step(prog, c).next, k)
    decreases k
  {
    if k > 0 {
      AfterFirst(prog, c, k - 1);
    }
  }

  /** Allowing more moves does not change the outcome of a run that ended. */
  lemma {:induction false} MoreMoves(prog: Program, c: Config, moves: int, more: int)
    requires Run(prog, c, moves) != TooManyMoves && moves <= more
    ensures Run(prog, c, more) == Run(prog, c, moves)
    decreases moves
  {
    if Step(prog, c).Moved? {
      MoreMoves(prog, Step(prog, c).next, moves - 1, more - 1);
    }
  }

  /** The judge's message for an outcome; None when the robot stopped where expected. */
  function Verdict(o: Outcome, expected: int): (e: Option<string>)
    ensures e.None? <==> o == Stopped(expected)
  {
    match o
    case Stopped(p) => if p == expected then None else Some("Stopped at incorrect position " + Decimal(p))
    case NoInstruction(s, t) => Some("No instruction found for (" + Decimal(s) + ", " + Decimal(t) + ")")
    case TooManyMoves => Some("Too many moves without stopping")
  }

  /** Runs the robot from the start, at most maxMoves moves. */
  method Execute(prog: Program, expected: int, maxMoves: int) returns (e: Option<string>)
    ensures e == Verdict(Run(prog, Start, maxMoves), expected)
    ensures e.None? <==> Run(prog, Start, maxMoves) == Stopped(expected)
  {
    var tapeMap: map<int, int> := map[];
    var moves, position, state := 0, 0, 0;
    while moves < maxMoves
      invariant moves >= 0
      invariant Run(prog, Config(tapeMap, position, state), maxMoves - moves) == Run(prog, Start, maxMoves)
      decreases maxMoves - moves
    {
      ghost var c := Config(tapeMap, position, state);
      moves := moves + 1;
      var tape := if position in tapeMap then tapeMap[position] else 0;
      if (state, tape) !in prog {
        return Some("No instruction found for (" + Decimal(state) + ", " + Decimal(tape) + ")");
      }
      var ins := prog[(state, tape)];
      state, tape := ins.state, ins.tape;
      tapeMap := tapeMap[position := tape];
      if ins.action == Stop {
        if position == expected {
          return None;
        } else {
          return Some("Stopped at incorrect position " + Decimal(position));
        }
      } else if ins.action == West {
        position := position - 1;
      } else {
        position := position + 1;
      }
      assert Step(prog, c) == Moved(Config(tapeMap, position, state));
    }
    return Some("Too many moves without stopping");
  }
}
