/**
 * The `nvidia-smi` CSV parser of `GPUService` (app/services/gpu_service.py):
 * one record per well-formed line of
 * `--query-gpu=...,fan.speed --format=csv,noheader,nounits` output, every
 * malformed line dropped on its own.
 *
 * Python's `float()` is left abstract: `toFloat` says which texts it accepts
 * and the value it gives them.
 */
module GpuService {
  import opened Text

  /** What `float(s)` gives: a value, or `None` where it raises `ValueError`. */
  type ToFloat = string -> Option<real>

  /** The dictionary built for one GPU. */
  datatype GpuStat = GpuStat(
    index: int, name: string, temperatureC: int,
    gpuUtilizationPct: int, memoryUtilizationPct: int,
    memoryUsedMb: int, memoryTotalMb: int, memoryFreeMb: int,
    powerDrawW: real, powerLimitW: real, fanSpeedPct: Option<int>)

  /** The number of fields a line must have. */
  const FIELD_COUNT := 11

  /** What `nvidia-smi` prints for a value the card does not report. */
  const NOT_AVAILABLE := "[N/A]"

  /** `[p.strip() for p in line.split(",")]` */
  function Fields(line: string): (parts: seq<string>)
    ensures |parts| == |Split(line, ',')|
    ensures forall i :: 0 <= i < |parts| ==> parts[i] == Strip(Split(line, ',')[i])
  {
    var raw := Split(line, ',');
    seq(|raw|, i requires 0 <= i < |raw| => Strip(raw[i]))
  }

  /** `int(parts[10]) if parts[10] != "[N/A]" else None`, failing when `int` raises. */
  function FanSpeed(field: string): Option<Option<int>> {
    if field == NOT_AVAILABLE then Some(None)
    else match ParseInt(field)
      case None => None
      case Some(n) => Some(Some(n))
  }

  /** Fields 0 and 2 to 4 as integers: index, temperature, GPU and memory utilisation. */
  function Counters(parts: seq<string>): Option<(int, int, int, int)>
    requires |parts| >= FIELD_COUNT
  {
    var index := ParseInt(parts[0]);
    var temperature := ParseInt(parts[2]);
    var gpuUtil := ParseInt(parts[3]);
    var memUtil := ParseInt(parts[4]);
    if index.Some? && temperature.Some? && gpuUtil.Some? && memUtil.Some?
    then Some((index.value, temperature.value, gpuUtil.value, memUtil.value))
    else None
  }

  /** Fields 5 to 7 as integers: memory used, total and free. */
  function Memory(parts: seq<string>): Option<(int, int, int)>
    requires |parts| >= FIELD_COUNT
  {
    var used := ParseInt(parts[5]);
    var total := ParseInt(parts[6]);
    var free := ParseInt(parts[7]);
    if used.Some? && total.Some? && free.Some?
    then Some((used.value, total.value, free.value))
    else None
  }

  /** Fields 8 and 9 as floats: power draw and power limit. */
  function Power(parts: seq<string>, toFloat: ToFloat): Option<(real, real)>
    requires |parts| >= FIELD_COUNT
  {
    var draw := toFloat(parts[8]);
    var limit := toFloat(parts[9]);
    if draw.Some? && limit.Some? then Some((draw.value, limit.value)) else None
  }

  /**
   * The record for eleven or more fields, converted in the order the source
   * builds the dictionary; `None` when a conversion raises.
   */
  function Record(parts: seq<string>, toFloat: ToFloat): (r: Option<GpuStat>)
    requires |parts| >= FIELD_COUNT
    ensures r.Some? ==> r.value.name == parts[1] && FanSpeed(parts[10]) == Some(r.value.fanSpeedPct)
  {
    var counters := Counters(parts);
    var memory := Memory(parts);
    var power := Power(parts, toFloat);
    var fan := FanSpeed(parts[10]);
    if counters.Some? && memory.Some? && power.Some? && fan.Some?
    then
      var (index, temperature, gpuUtil, memUtil) := counters.value;
      var (used, total, free) := memory.value;
      var (draw, limit) := power.value;
      Some(GpuStat(index, parts[1], temperature, gpuUtil, memUtil, used, total, free, draw, limit, fan.value))
    else None
  }

  /** The record one line gives, or `None` when the line is skipped. */
  function ParseLine(line: string, toFloat: ToFloat): (r: Option<GpuStat>)
    ensures r.Some? ==> Strip(line) != [] && |Fields(line)| >= FIELD_COUNT
  {
    if Strip(line) == [] then None
    else
      var parts := Fields(line);
      if |parts| < FIELD_COUNT then None else Record(parts, toFloat)
  }

  /** The records of a run of lines, in line order. */
  function ParseLines(lines: seq<string>, toFloat: ToFloat): seq<GpuStat> {
    if lines == [] then []
    else
      var last := ParseLine(lines[|lines| - 1], toFloat);
      ParseLines(lines[..|lines| - 1], toFloat) + (if last.Some? then [last.value] else [])
  }

  /** `output.strip().split("\n")` */
  function Lines(output: string): seq<string> {
    Split(Strip(output), '\n')
  }

  /** What `_parse_nvidia_smi` returns. */
  function ParseNvidiaSmi(output: string, toFloat: ToFloat): (stats: seq<GpuStat>)
    ensures |stats| <= |Lines(output)|
  {
    ParseLinesBound(Lines(output), toFloat);
    ParseLines(Lines(output), toFloat)
  }

  /** The body of the loop of `_parse_nvidia_smi` for one line; `None` where it continues. */
  method ParseOneLine(line: string, toFloat: ToFloat) returns (record: Option<GpuStat>)
    ensures record == ParseLine(line, toFloat)
  {
    if Strip(line) == [] {
      return None;
    }
    var parts := Fields(line);
    if |parts| < FIELD_COUNT {
      return None;
    }
    record := Record(parts, toFloat);
  }

  /**
   * `_parse_nvidia_smi`: the records of the lines of the stripped output, in
   * order; a blank line, a line with fewer than eleven fields or one whose
   * conversion raises is skipped and the loop goes on.
   */
  method ParseNvidiaSmiOutput(output: string, toFloat: ToFloat) returns (stats: seq<GpuStat>)
    ensures stats == ParseNvidiaSmi(output, toFloat)
  {
    stats := ParseEachLine(Lines(output), toFloat);
  }

  /** The `for line in ...` loop of `_parse_nvidia_smi`. */
  method ParseEachLine(lines: seq<string>, toFloat: ToFloat) returns (stats: seq<GpuStat>)
    ensures stats == ParseLines(lines, toFloat)
  {
    stats := [];
    var i := 0;
    while i < |lines|
      invariant 0 <= i <= |lines|
      invariant stats == ParseLines(lines[..i], toFloat)
    {
      var record := ParseOneLine(lines[i], toFloat);
      ParseLinesStep(lines, i, toFloat, stats, record);
      i := i + 1;
      if record.None? {
        continue;
      }
      stats := stats + [record.value];
    }
    assert lines[..i] == lines;
  }

  /** The records of one more line: the record it gives, if any, after those before it. */
  lemma ParseLinesStep(lines: seq<string>, i: nat, toFloat: ToFloat, stats: seq<GpuStat>, record: Option<GpuStat>)
    requires i < |lines|
    requires stats == ParseLines(lines[..i], toFloat) && record == ParseLine(lines[i], toFloat)
    ensures ParseLines(lines[..i + 1], toFloat) == if record.Some? then stats + [record.value] else stats
  {
    ParseLinesSnoc(lines, i, toFloat);
    if record.None? {
      AppendEmpty(stats);
    }
  }

  lemma ParseLinesSnoc(lines: seq<string>, i: nat, toFloat: ToFloat)
    requires i < |lines|
    ensures ParseLines(lines[..i + 1], toFloat) ==
      ParseLines(lines[..i], toFloat) + (if ParseLine(lines[i], toFloat).Some? then [ParseLine(lines[i], toFloat).value] else [])
  {
    assert lines[..i + 1][..i] == lines[..i];
  }

  lemma AppendEmpty<T>(s: seq<T>)
    ensures s + [] == s
  {
  }

  /** Lines are parsed independently and in order: the records of two runs of lines, one after the other. */
  lemma {:induction false} ParseLinesConcat(a: seq<string>, b: seq<string>, toFloat: ToFloat)
    ensures ParseLines(a + b, toFloat) == ParseLines(a, toFloat) + ParseLines(b, toFloat)
    decreases |b|
  {
    if b == [] {
      assert a + b == a;
      AppendEmpty(ParseLines(a, toFloat));
    } else {
      var init := b[..|b| - 1];
      ParseLinesConcat(a, init, toFloat);
      assert (a + b)[..|a + b| - 1] == a + init;
      assert (a + b)[|a + b| - 1] == b[|b| - 1];
      var last := ParseLine(b[|b| - 1], toFloat);
      var tail := if last.Some? then [last.value] else [];
      Assoc(ParseLines(a, toFloat), ParseLines(init, toFloat), tail);
    }
  }

  /** The number of lines that are not blank. */
  function NonBlank(lines: seq<string>): nat {
    if lines == [] then 0
    else NonBlank(lines[..|lines| - 1]) + (if Strip(lines[|lines| - 1]) == [] then 0 else 1)
  }

  /** There are never more records than non-blank lines. */
  lemma {:induction false} ParseLinesBound(lines: seq<string>, toFloat: ToFloat)
    ensures |ParseLines(lines, toFloat)| <= NonBlank(lines) <= |lines|
  {
    if lines != [] {
      ParseLinesBound(lines[..|lines| - 1], toFloat);
    }
  }

  /** Output that is only whitespace gives no records. */
  lemma BlankOutputNoRecords(output: string, toFloat: ToFloat)
    requires AllSpace(output)
    ensures ParseNvidiaSmi(output, toFloat) == []
  {
    LinesOfBlank(output);
    NoRecordsOfBlankLine(toFloat);
  }

  lemma LinesOfBlank(output: string)
    requires AllSpace(output)
    ensures Lines(output) == [[]]
  {
    var empty: string := [];
    assert Strip(output) == empty;
    assert '\n' !in empty;
  }

  lemma NoRecordsOfBlankLine(toFloat: ToFloat)
    ensures ParseLines([[]], toFloat) == []
  {
    var empty: string := [];
    assert ParseLine(empty, toFloat).None?;
    assert [empty][..0] == [];
  }

  /** Every conversion of a line with eleven or more fields succeeds. */
  predicate Converts(parts: seq<string>, toFloat: ToFloat)
    requires |parts| >= FIELD_COUNT
  {
    && ParseInt(parts[0]).Some? && ParseInt(parts[2]).Some?
    && ParseInt(parts[3]).Some? && ParseInt(parts[4]).Some?
    && ParseInt(parts[5]).Some? && ParseInt(parts[6]).Some? && ParseInt(parts[7]).Some?
    && toFloat(parts[8]).Some? && toFloat(parts[9]).Some?
    && (parts[10] == NOT_AVAILABLE || ParseInt(parts[10]).Some?)
  }

  /** A record is built exactly when every conversion succeeds. */
  lemma RecordSomeIff(parts: seq<string>, toFloat: ToFloat)
    requires |parts| >= FIELD_COUNT
    ensures Record(parts, toFloat).Some? <==> Converts(parts, toFloat)
  {
    RecordSomeGroups(parts, toFloat);
    CountersSomeIff(parts);
    MemorySomeIff(parts);
  }

  lemma RecordSomeGroups(parts: seq<string>, toFloat: ToFloat)
    requires |parts| >= FIELD_COUNT
    ensures Record(parts, toFloat).Some? <==>
      Counters(parts).Some? && Memory(parts).Some? && Power(parts, toFloat).Some? && FanSpeed(parts[10]).Some?
  {
  }

  lemma CountersSomeIff(parts: seq<string>)
    requires |parts| >= FIELD_COUNT
    ensures Counters(parts).Some? <==>
      ParseInt(parts[0]).Some? && ParseInt(parts[2]).Some? && ParseInt(parts[3]).Some? && ParseInt(parts[4]).Some?
  {
  }

  lemma MemorySomeIff(parts: seq<string>)
    requires |parts| >= FIELD_COUNT
    ensures Memory(parts).Some? <==> ParseInt(parts[5]).Some? && ParseInt(parts[6]).Some? && ParseInt(parts[7]).Some?
  {
  }

  /** A line is dropped exactly when it is blank, has fewer than eleven fields, or one of its conversions raises. */
  lemma ParseLineNoneIff(line: string, toFloat: ToFloat)
    ensures ParseLine(line, toFloat).None? <==>
      Strip(line) == [] || |Fields(line)| < FIELD_COUNT || !Converts(Fields(line), toFloat)
  {
    if Strip(line) != [] && |Fields(line)| >= FIELD_COUNT {
      RecordSomeIff(Fields(line), toFloat);
    }
  }

  /** The integer fields of a record: `index` is field 0, temperature and utilisations fields 2 to 4. */
  lemma RecordCounters(parts: seq<string>, toFloat: ToFloat)
    requires |parts| >= FIELD_COUNT && Record(parts, toFloat).Some?
    ensures var s := Record(parts, toFloat).value;
      && ParseInt(parts[0]) == Some(s.index)
      && ParseInt(parts[2]) == Some(s.temperatureC)
      && ParseInt(parts[3]) == Some(s.gpuUtilizationPct)
      && ParseInt(parts[4]) == Some(s.memoryUtilizationPct)
  {
    assert Counters(parts).Some?;
    var c := Counters(parts).value;
    assert Record(parts, toFloat).value.index == c.0;
  }

  /** The memory fields of a record are fields 5 to 7, in megabytes. */
  lemma RecordMemory(parts: seq<string>, toFloat: ToFloat)
    requires |parts| >= FIELD_COUNT && Record(parts, toFloat).Some?
    ensures var s := Record(parts, toFloat).value;
      && ParseInt(parts[5]) == Some(s.memoryUsedMb)
      && ParseInt(parts[6]) == Some(s.memoryTotalMb)
      && ParseInt(parts[7]) == Some(s.memoryFreeMb)
  {
    assert Memory(parts).Some?;
    var m := Memory(parts).value;
    assert Record(parts, toFloat).value.memoryUsedMb == m.0;
  }

  /** `name` is field 1 as given, the power draw and limit are fields 8 and 9. */
  lemma RecordNamePower(parts: seq<string>, toFloat: ToFloat)
    requires |parts| >= FIELD_COUNT && Record(parts, toFloat).Some?
    ensures var s := Record(parts, toFloat).value;
      && s.name == parts[1]
      && toFloat(parts[8]) == Some(s.powerDrawW)
      && toFloat(parts[9]) == Some(s.powerLimitW)
  {
  }

  /** The fan speed is absent exactly when field 10 is `[N/A]`, and its integer value otherwise. */
  lemma RecordFan(parts: seq<string>, toFloat: ToFloat)
    requires |parts| >= FIELD_COUNT && Record(parts, toFloat).Some?
    ensures var s := Record(parts, toFloat).value;
      && (s.fanSpeedPct.None? <==> parts[10] == NOT_AVAILABLE)
      && (s.fanSpeedPct.Some? ==> ParseInt(parts[10]) == s.fanSpeedPct)
  {
  }

  /** A record read from a line is the record of its stripped fields; the line is not blank. */
  lemma ParseLineRecord(line: string, toFloat: ToFloat)
    requires ParseLine(line, toFloat).Some?
    ensures Strip(line) != [] && |Fields(line)| >= FIELD_COUNT
    ensures ParseLine(line, toFloat) == Record(Fields(line), toFloat)
  {
  }

  /** Fields after the eleventh are ignored. */
  lemma ExtraFieldsIgnored(parts: seq<string>, toFloat: ToFloat)
    requires |parts| >= FIELD_COUNT
    ensures Record(parts, toFloat) == Record(parts[..FIELD_COUNT], toFloat)
  {
    var p := parts[..FIELD_COUNT];
    assert forall k :: 0 <= k < FIELD_COUNT ==> p[k] == parts[k];
    assert Counters(p) == Counters(parts) && Memory(p) == Memory(parts);
    assert Power(p, toFloat) == Power(parts, toFloat) && FanSpeed(p[10]) == FanSpeed(parts[10]);
  }

  /** What `nvidia-smi` prints for the fan speed: `[N/A]` when the card does not report it. */
  function FanText(fan: Option<int>): string {
    if fan.None? then NOT_AVAILABLE else IntToString(fan.value)
  }

  /**
   * The eleven cells `nvidia-smi` prints for one GPU, in query order; the
   * power readings are given as the texts it prints for them.
   */
  function Cells(s: GpuStat, draw: string, limit: string): (cells: seq<string>)
    ensures |cells| == FIELD_COUNT
  {
    [IntToString(s.index), s.name, IntToString(s.temperatureC),
     IntToString(s.gpuUtilizationPct), IntToString(s.memoryUtilizationPct),
     IntToString(s.memoryUsedMb), IntToString(s.memoryTotalMb), IntToString(s.memoryFreeMb),
     draw, limit, FanText(s.fanSpeedPct)]
  }

  /** The cells as `nvidia-smi` separates them: `", "` between cells, so a blank leads every cell but the first. */
  function Spaced(cells: seq<string>): (ps: seq<string>)
    requires |cells| >= 1
    ensures |ps| == |cells| && ps[0] == cells[0]
    ensures forall k :: 1 <= k < |cells| ==> ps[k] == " " + cells[k]
  {
    [cells[0]] + seq(|cells| - 1, k requires 0 <= k < |cells| - 1 => " " + cells[k + 1])
  }

  /** One line of `--format=csv,noheader,nounits` output for a GPU: the cells joined by `", "`. */
  function CsvLine(s: GpuStat, draw: string, limit: string): string {
    Join(Spaced(Cells(s, draw, limit)), ',')
  }

  /**
   * The parser reads back the record of every line `nvidia-smi` prints for a
   * GPU (cells separated by a comma and a blank), provided the name has no
   * comma and no surrounding blanks and `float` reads the printed powers back.
   */
  lemma CsvLineRoundTrip(s: GpuStat, draw: string, limit: string, toFloat: ToFloat)
    requires ',' !in s.name && Strip(s.name) == s.name
    requires ',' !in draw && ',' !in limit
    requires toFloat(Strip(draw)) == Some(s.powerDrawW) && toFloat(Strip(limit)) == Some(s.powerLimitW)
    ensures ParseLine(CsvLine(s, draw, limit), toFloat) == Some(s)
  {
    var cells := Cells(s, draw, limit);
    CellsAt(s, draw, limit);
    CsvFields(s, draw, limit);
    var parts := Fields(CsvLine(s, draw, limit));
    RecordOfStrippedCells(parts, cells, s, draw, limit, toFloat);
    CsvLineNotBlank(s, draw, limit);
  }

  lemma CellsAt(s: GpuStat, draw: string, limit: string)
    ensures var cells := Cells(s, draw, limit);
      && cells[0] == IntToString(s.index) && cells[1] == s.name
      && cells[2] == IntToString(s.temperatureC) && cells[3] == IntToString(s.gpuUtilizationPct)
      && cells[4] == IntToString(s.memoryUtilizationPct) && cells[5] == IntToString(s.memoryUsedMb)
      && cells[6] == IntToString(s.memoryTotalMb) && cells[7] == IntToString(s.memoryFreeMb)
      && cells[8] == draw && cells[9] == limit && cells[10] == FanText(s.fanSpeedPct)
  {
    var a := IntToString(s.index);
    var b := IntToString(s.temperatureC);
    var c := IntToString(s.gpuUtilizationPct);
    var d := IntToString(s.memoryUtilizationPct);
    var e := IntToString(s.memoryUsedMb);
    var f := IntToString(s.memoryTotalMb);
    var g := IntToString(s.memoryFreeMb);
    var h := FanText(s.fanSpeedPct);
    assert Cells(s, draw, limit) == [a, s.name, b, c, d, e, f, g, draw, limit, h];
  }

  lemma RecordOfStrippedCells(parts: seq<string>, cells: seq<string>, s: GpuStat, draw: string, limit: string, toFloat: ToFloat)
    requires |parts| == FIELD_COUNT && |cells| == FIELD_COUNT
    requires forall k :: 0 <= k < FIELD_COUNT ==> parts[k] == Strip(cells[k])
    requires cells[0] == IntToString(s.index) && cells[1] == s.name
    requires cells[2] == IntToString(s.temperatureC) && cells[3] == IntToString(s.gpuUtilizationPct)
    requires cells[4] == IntToString(s.memoryUtilizationPct) && cells[5] == IntToString(s.memoryUsedMb)
    requires cells[6] == IntToString(s.memoryTotalMb) && cells[7] == IntToString(s.memoryFreeMb)
    requires cells[8] == draw && cells[9] == limit && cells[10] == FanText(s.fanSpeedPct)
    requires Strip(s.name) == s.name
    requires toFloat(Strip(draw)) == Some(s.powerDrawW) && toFloat(Strip(limit)) == Some(s.powerLimitW)
    ensures Record(parts, toFloat) == Some(s)
  {
    CountersOfCells(parts, s);
    MemoryOfCells(parts, s);
    FanCellParses(parts[10], s.fanSpeedPct);
    RecordOfCells(parts, s, toFloat);
  }

  lemma CountersOfCells(parts: seq<string>, s: GpuStat)
    requires |parts| == FIELD_COUNT
    requires parts[0] == Strip(IntToString(s.index)) && parts[2] == Strip(IntToString(s.temperatureC))
    requires parts[3] == Strip(IntToString(s.gpuUtilizationPct)) && parts[4] == Strip(IntToString(s.memoryUtilizationPct))
    ensures Counters(parts) == Some((s.index, s.temperatureC, s.gpuUtilizationPct, s.memoryUtilizationPct))
  {
    IntCellParses(parts[0], s.index);
    IntCellParses(parts[2], s.temperatureC);
    IntCellParses(parts[3], s.gpuUtilizationPct);
    IntCellParses(parts[4], s.memoryUtilizationPct);
  }

  lemma MemoryOfCells(parts: seq<string>, s: GpuStat)
    requires |parts| == FIELD_COUNT
    requires parts[5] == Strip(IntToString(s.memoryUsedMb)) && parts[6] == Strip(IntToString(s.memoryTotalMb))
    requires parts[7] == Strip(IntToString(s.memoryFreeMb))
    ensures Memory(parts) == Some((s.memoryUsedMb, s.memoryTotalMb, s.memoryFreeMb))
  {
    IntCellParses(parts[5], s.memoryUsedMb);
    IntCellParses(parts[6], s.memoryTotalMb);
    IntCellParses(parts[7], s.memoryFreeMb);
  }

  /** A printed line starts with the GPU's index, so it is never blank. */
  lemma CsvLineNotBlank(s: GpuStat, draw: string, limit: string)
    ensures Strip(CsvLine(s, draw, limit)) != []
  {
    var cells := Spaced(Cells(s, draw, limit));
    IntTextEdge(s.index);
    assert CsvLine(s, draw, limit)[0] == cells[0][0];
  }

  /** The stripped fields of a printed line are its stripped cells. */
  lemma CsvFields(s: GpuStat, draw: string, limit: string)
    requires ',' !in s.name && ',' !in draw && ',' !in limit
    ensures |Fields(CsvLine(s, draw, limit))| == FIELD_COUNT
    ensures forall k :: 0 <= k < FIELD_COUNT ==> Fields(CsvLine(s, draw, limit))[k] == Strip(Cells(s, draw, limit)[k])
  {
    CellsHaveNoComma(s, draw, limit);
    FieldsOfSpaced(Cells(s, draw, limit));
  }

  /** Splitting `", "`-joined comma-free cells and stripping the parts gives the stripped cells. */
  lemma FieldsOfSpaced(cells: seq<string>)
    requires |cells| >= 1
    requires forall k :: 0 <= k < |cells| ==> ',' !in cells[k]
    ensures |Fields(Join(Spaced(cells), ','))| == |cells|
    ensures forall k :: 0 <= k < |cells| ==> Fields(Join(Spaced(cells), ','))[k] == Strip(cells[k])
  {
    SpacedHasNoComma(cells);
    SplitJoin(Spaced(cells), ',');
    SpacedStrips(cells);
  }

  lemma SpacedStrips(cells: seq<string>)
    requires |cells| >= 1
    ensures forall k :: 0 <= k < |cells| ==> Strip(Spaced(cells)[k]) == Strip(cells[k])
  {
    forall k | 1 <= k < |cells|
      ensures Strip(Spaced(cells)[k]) == Strip(cells[k])
    {
      StripLeadingBlank(cells[k]);
    }
  }

  lemma SpacedHasNoComma(cells: seq<string>)
    requires |cells| >= 1
    requires forall k :: 0 <= k < |cells| ==> ',' !in cells[k]
    ensures forall k :: 0 <= k < |cells| ==> ',' !in Spaced(cells)[k]
  {
    forall k | 1 <= k < |cells|
      ensures ',' !in Spaced(cells)[k]
    {
      assert Spaced(cells)[k] == [' '] + cells[k];
    }
  }

  lemma IntCellParses(cell: string, n: int)
    requires cell == Strip(IntToString(n))
    ensures ParseInt(cell) == Some(n)
  {
    StripIdempotent(IntToString(n));
    IntToStringRoundTrip(n);
  }

  /** `[N/A]` is left as it is by `strip` and is not a number. */
  lemma NotAvailableText()
    ensures Strip(NOT_AVAILABLE) == NOT_AVAILABLE && ParseInt(NOT_AVAILABLE) == None
  {
    var na := NOT_AVAILABLE;
    assert na[0] == '[' && na[|na| - 1] == ']';
    StripNoEdgeSpace(na);
    assert !AllDigits(na) by {
      assert !IsDigit(na[0]);
    }
  }

  lemma FanCellParses(cell: string, fan: Option<int>)
    requires cell == Strip(FanText(fan))
    ensures FanSpeed(cell) == Some(fan)
  {
    if fan.Some? {
      FanNumberParses(cell, fan.value);
    } else {
      NotAvailableText();
    }
  }

  lemma FanNumberParses(cell: string, n: int)
    requires cell == Strip(IntToString(n))
    ensures FanSpeed(cell) == Some(Some(n))
  {
    IntCellParses(cell, n);
    NotAvailableText();
    assert cell != NOT_AVAILABLE;
  }

  lemma CellsHaveNoComma(s: GpuStat, draw: string, limit: string)
    requires ',' !in s.name && ',' !in draw && ',' !in limit
    ensures forall k :: 0 <= k < FIELD_COUNT ==> ',' !in Cells(s, draw, limit)[k]
  {
    IntTextNoComma(s.index);
    IntTextNoComma(s.temperatureC);
    IntTextNoComma(s.gpuUtilizationPct);
    IntTextNoComma(s.memoryUtilizationPct);
    IntTextNoComma(s.memoryUsedMb);
    IntTextNoComma(s.memoryTotalMb);
    IntTextNoComma(s.memoryFreeMb);
    if s.fanSpeedPct.Some? {
      IntTextNoComma(s.fanSpeedPct.value);
    }
  }

  lemma IntTextEdge(n: int)
    ensures !IsSpace(IntToString(n)[0])
  {
    if n >= 0 {
      assert IsDigit(NatToString(n)[0]);
    }
  }

  lemma IntTextNoComma(n: int)
    ensures ',' !in IntToString(n)
  {
    var t := IntToString(n);
    forall k | 0 <= k < |t| ensures t[k] != ',' {
      if k == 0 {
        if n >= 0 {
          assert IsDigit(NatToString(n)[0]);
        }
      } else {
        assert t[k] == t[1..][k - 1];
      }
    }
  }

  lemma RecordOfCells(parts: seq<string>, s: GpuStat, toFloat: ToFloat)
    requires |parts| >= FIELD_COUNT
    requires Counters(parts) == Some((s.index, s.temperatureC, s.gpuUtilizationPct, s.memoryUtilizationPct))
    requires Memory(parts) == Some((s.memoryUsedMb, s.memoryTotalMb, s.memoryFreeMb))
    requires parts[1] == s.name && toFloat(parts[8]) == Some(s.powerDrawW) && toFloat(parts[9]) == Some(s.powerLimitW)
    requires FanSpeed(parts[10]) == Some(s.fanSpeedPct)
    ensures Record(parts, toFloat) == Some(s)
  {
  }
}
