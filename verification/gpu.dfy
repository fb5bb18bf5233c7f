/**
 * ipp_tools/gpu.py: `fetch_gpu_status`, the parser of `nvidia-smi` output,
 * and its helper `_strip_empty_str`. The exit status and the text the
 * command prints are parameters; the parsing is modelled line by line.
 */
module Gpu {
  import opened Wrappers
  import opened Strings

  /** The exceptions `fetch_gpu_status` can raise. */
  datatype FetchError =
    | StatusNonZero(code: int)   // `assert status_code == 0` failed
    | IndexError                 // a list of fields or words is too short
    | ValueError                 // `int()` rejected a token, or tuple unpacking got the wrong count
    | ZeroDivisionError          // a GPU reports 0 MiB of total memory
    | KeyError                   // a process names a GPU missing from `indexed_gpus`

  /** The `'physicals'` entry of a record: fan speed, temperature and power draw, as printed. */
  datatype Physicals = Physicals(fan: string, temp: string, power: string)

  /**
   * One process line. `memUsage` is the printed token (such as `2289MiB`)
   * from which `fetch_gpu_status` computes the float `mem_frac`.
   */
  datatype ProcessEntry = ProcessEntry(pid: int, ptype: string, name: string, memUsage: string)

  /**
   * One GPU record. `usedMemory` and `usage` are the printed tokens from
   * which `fetch_gpu_status` computes the floats `memory_frac` and `usage_frac`.
   */
  datatype GpuRecord = GpuRecord(
    id: int, physicals: Physicals, usedMemory: string, totMemory: int, usage: string,
    processes: seq<ProcessEntry>)

  // ---------------------------------------------------------------------------
  // _strip_empty_str

  /** The non-empty tokens of `toks`, in their original order. */
  function NonEmpty(toks: seq<string>): (r: seq<string>)
    decreases |toks|
  {
    if |toks| == 0 then []
    else NonEmpty(toks[..|toks| - 1]) + (if toks[|toks| - 1] != "" then [toks[|toks| - 1]] else [])
  }

  /** `_strip_empty_str`: builds the list of non-empty tokens by appending in a loop. */
  method StripEmptyStr(tokList: seq<string>) returns (tokens: seq<string>)
    ensures tokens == NonEmpty(tokList)
  {
    tokens := [];
    for i := 0 to |tokList|
      invariant tokens == NonEmpty(tokList[..i])
    {
      assert tokList[..i + 1][..i] == tokList[..i];
      if tokList[i] != "" {
        tokens := tokens + [tokList[i]];
      }
    }
    assert tokList[..|tokList|] == tokList;
  }

  /** Filtering distributes over concatenation, so the order of the kept tokens is the input's. */
  lemma {:induction false} NonEmptyConcat(a: seq<string>, b: seq<string>)
    ensures NonEmpty(a + b) == NonEmpty(a) + NonEmpty(b)
    decreases |b|
  {
    if |b| == 0 {
      assert a + b == a;
    } else {
      var n := |b|;
      NonEmptyConcat(a, b[..n - 1]);
      assert (a + b)[..|a + b| - 1] == a + b[..n - 1];
    }
  }

  /** Exactly the empty tokens are removed: every other token keeps its number of occurrences. */
  lemma {:induction false} NonEmptyMultiset(toks: seq<string>)
    ensures multiset(NonEmpty(toks)) == multiset(toks)[""  := 0]
    decreases |toks|
  {
    if |toks| > 0 {
      var n := |toks|;
      NonEmptyMultiset(toks[..n - 1]);
      assert toks == toks[..n - 1] + [toks[n - 1]];
    }
  }

  /** Every token left is a non-empty token of the input: no empty token is left. */
  lemma NonEmptyKeepsTokens(toks: seq<string>)
    ensures forall w :: w in NonEmpty(toks) ==> w in toks && w != ""
  {
    NonEmptyMultiset(toks);
    forall w | w in NonEmpty(toks)
      ensures w in toks && w != ""
    {
      assert w in multiset(NonEmpty(toks));
    }
  }

  /** Stripping twice gives the same as stripping once. */
  lemma {:induction false} NonEmptyIdempotent(toks: seq<string>)
    ensures NonEmpty(NonEmpty(toks)) == NonEmpty(toks)
    decreases |toks|
  {
    if |toks| > 0 {
      var n := |toks|;
      var front := NonEmpty(toks[..n - 1]);
      NonEmptyIdempotent(toks[..n - 1]);
      var last := if toks[n - 1] != "" then [toks[n - 1]] else [];
      NonEmptyConcat(front, last);
      if toks[n - 1] != "" {
        assert NonEmpty(last) == NonEmpty([]) + [toks[n - 1]];
      }
    }
  }

  // ---------------------------------------------------------------------------
  // Parsing single lines

  /** `_strip_empty_str(s.split(' '))`: the space-separated words of `s`. */
  function Words(s: string): (r: seq<string>)
    ensures forall w :: w in r ==> w != "" && ' ' !in w
  {
    SplitPiecesFree(s, ' ');
    NonEmptyKeepsTokens(Split(s, ' '));
    NonEmpty(Split(s, ' '))
  }

  /** A line holding this marker is a GPU header line. */
  const TitanMarker: string := "TITAN X"

  /** A line holding this marker opens the process table. */
  const ProcessesMarker: string := "Processes:"

  /** `disallowed_lines`: prefixes of the process table's decoration. */
  const DisallowedLines: seq<string> := ["+----", "|  GPU", "|======", "|    0 "]

  /**
   * A line skipped inside the process table: it starts with one of
   * `disallowed_lines`, so with a `+` or a `|` and at least five characters.
   */
  predicate IsSkipped(line: string)
    ensures IsSkipped(line) <==> exists p :: p in DisallowedLines && StartsWith(line, p)
    ensures IsSkipped(line) ==> |line| >= 5 && (line[0] == '+' || line[0] == '|')
  {
    assert DisallowedLines == ["+----", "|  GPU", "|======", "|    0 "];
    StartsWith(line, "+----") || StartsWith(line, "|  GPU") || StartsWith(line, "|======")
    || StartsWith(line, "|    0 ")
  }

  /** The GPU id of a header line: the first word of its second `|`-separated field. */
  function HeaderId(line: string): (r: Result<int, FetchError>)
    ensures r.Ok? ==> (|Split(line, '|')| >= 2 && |Words(Split(line, '|')[1])| >= 1
                       && ParseInt(Words(Split(line, '|')[1])[0]) == Some(r.value))
  {
    var fields := Split(line, '|');
    if |fields| < 2 then Err(IndexError)
    else
      var words := Words(fields[1]);
      if |words| == 0 then Err(IndexError)
      else
        match ParseInt(words[0])
        case None => Err(ValueError)
        case Some(id) => Ok(id)
  }

  /**
   * The record built from the line after a header: the line must have exactly
   * five `|`-separated fields; fan, temperature and power are words 0, 1 and 3
   * of the second, used and total memory words 0 and 2 of the third, the
   * utilisation word 0 of the fourth. `tot_memory` is the total with its unit
   * (its last three characters) removed.
   */
  function StatsRecord(line: string, id: int): (r: Result<GpuRecord, FetchError>)
    ensures r.Ok? ==> r.value.id == id && r.value.processes == [] && r.value.totMemory != 0
    ensures r.Ok? ==> (|Split(line, '|')| == 5 && |Words(Split(line, '|')[2])| >= 3
                       && ParseInt(DropLast(Words(Split(line, '|')[2])[2], 3)) == Some(r.value.totMemory))
  {
    var fields := Split(line, '|');
    if |fields| != 5 then Err(ValueError)
    else
      var physicals, memory, usage := Words(fields[1]), Words(fields[2]), Words(fields[3]);
      if |physicals| < 4 || |memory| < 3 then Err(IndexError)
      else
        match ParseInt(DropLast(memory[2], 3))
        case None => Err(ValueError)
        case Some(total) =>
          if total == 0 then Err(ZeroDivisionError)
          else if |usage| == 0 then Err(IndexError)
          else Ok(GpuRecord(id, Physicals(physicals[0], physicals[1], physicals[3]), memory[0], total, usage[0], []))
  }

  /**
   * A process-table line: the first non-empty `|`-separated field must hold
   * exactly five words, GPU id, pid, type, name and memory, the first two integers.
   */
  function ProcessLine(line: string): (r: Result<(int, ProcessEntry), FetchError>)
    ensures r.Ok? ==> |NonEmpty(Split(line, '|'))| >= 1
    ensures r.Ok? ==> var words := Words(NonEmpty(Split(line, '|'))[0]);
      |words| == 5 && ParseInt(words[0]) == Some(r.value.0) && ParseInt(words[1]) == Some(r.value.1.pid)
      && r.value.1.ptype == words[2] && r.value.1.name == words[3] && r.value.1.memUsage == words[4]
  {
    var fields := NonEmpty(Split(line, '|'));
    if |fields| == 0 then Err(IndexError)
    else
      var words := Words(fields[0]);
      if |words| != 5 then Err(ValueError)
      else
        match ParseInt(words[0])
        case None => Err(ValueError)
        case Some(gpuId) =>
          match ParseInt(words[1])
          case None => Err(ValueError)
          case Some(pid) => Ok((gpuId, ProcessEntry(pid, words[2], words[3], words[4])))
  }

  // ---------------------------------------------------------------------------
  // The line-by-line state machine

  /** The ids of `records`, in order: what `valid_ids` holds. */
  function Ids(records: seq<GpuRecord>): (r: seq<int>)
    ensures |r| == |records|
    ensures forall k :: 0 <= k < |r| ==> r[k] == records[k].id
  {
    seq(|records|, k requires 0 <= k < |records| => records[k].id)
  }

  /**
   * `indexed_gpus = {rec['id']: rec for rec in gpu_records}`, with each record
   * named by its position in `gpu_records` (the dictionary shares the record
   * objects with the list). A later record with the same id wins.
   */
  function IndexById(records: seq<GpuRecord>): (m: map<int, nat>)
    ensures forall g :: g in m <==> g in Ids(records)
    ensures forall g :: g in m ==> m[g] < |records| && records[m[g]].id == g
    ensures forall g, k :: g in m && m[g] < k < |records| ==> records[k].id != g
    decreases |records|
  {
    if |records| == 0 then map[]
    else
      var n := |records|;
      assert Ids(records) == Ids(records[..n - 1]) + [records[n - 1].id];
      IndexById(records[..n - 1])[records[n - 1].id := n - 1]
  }

  /** The local variables of `fetch_gpu_status` between two lines. */
  datatype ParserState = ParserState(
    records: seq<GpuRecord>, validIds: seq<int>, titanLine: bool, titanId: int,
    processBlock: bool, indexed: map<int, nat>)

  /** Every record `indexed_gpus` names is in `gpu_records`, under its own id. */
  predicate WellFormed(st: ParserState) {
    forall g :: g in st.indexed ==> st.indexed[g] < |st.records| && st.records[st.indexed[g]].id == g
  }

  const Initial: ParserState := ParserState([], [], false, 0, false, map[])

  /** Appends a process entry to the processes of record `j`. */
  function Attach(records: seq<GpuRecord>, j: nat, entry: ProcessEntry): (r: seq<GpuRecord>)
    requires j < |records|
    ensures |r| == |records| && r[j].processes == records[j].processes + [entry]
    ensures forall k :: 0 <= k < |r| ==> r[k].(processes := []) == records[k].(processes := [])
    ensures forall k :: 0 <= k < |r| && k != j ==> r[k] == records[k]
  {
    records[j := records[j].(processes := records[j].processes + [entry])]
  }

  /** One iteration of the loop of `fetch_gpu_status`, on one line. */
  function Step(st: ParserState, line: string): (r: Result<ParserState, FetchError>)
    requires WellFormed(st)
    ensures r.Ok? ==> WellFormed(r.value)
  {
    if Contains(line, TitanMarker) then
      match HeaderId(line)
      case Err(e) => Err(e)
      case Ok(id) => Ok(st.(titanLine := true, titanId := id))
    else if st.titanLine then
      match StatsRecord(line, st.titanId)
      case Err(e) => Err(e)
      case Ok(rec) => Ok(st.(records := st.records + [rec], validIds := st.validIds + [st.titanId], titanLine := false))
    else if Contains(line, ProcessesMarker) then
      Ok(st.(processBlock := true, indexed := IndexById(st.records)))
    else if st.processBlock && !IsSkipped(line) then
      match ProcessLine(line)
      case Err(e) => Err(e)
      case Ok((gpuId, entry)) =>
        if gpuId !in st.validIds then Ok(st)
        else if gpuId !in st.indexed then Err(KeyError)
        else Ok(st.(records := Attach(st.records, st.indexed[gpuId], entry)))
    else Ok(st)
  }

  /** The state after the loop has consumed `lines`, or the exception it raised. */
  function Run(lines: seq<string>): (r: Result<ParserState, FetchError>)
    ensures r.Ok? ==> WellFormed(r.value)
    decreases |lines|
  {
    if |lines| == 0 then Ok(Initial)
    else
      match Run(lines[..|lines| - 1])
      case Err(e) => Err(e)
      case Ok(st) => Step(st, lines[|lines| - 1])
  }

  /** What `fetch_gpu_status` returns or raises, given the exit status and output of `nvidia-smi`. */
  function GpuStatus(statusCode: int, output: string): (r: Result<seq<GpuRecord>, FetchError>)
    ensures statusCode != 0 ==> r == Err(StatusNonZero(statusCode))
    ensures r.Ok? ==> statusCode == 0 && |r.value| == |StatsLines(Split(output, '\n'))|
    ensures r.Ok? ==> forall k :: 0 <= k < |r.value| ==>
      BuiltFrom(Split(output, '\n'), StatsLines(Split(output, '\n'))[k], r.value[k])
  {
    if statusCode != 0 then Err(StatusNonZero(statusCode))
    else
      match Run(Split(output, '\n'))
      case Err(e) => Err(e)
      case Ok(st) =>
        RunRecordsBuiltFrom(Split(output, '\n'));
        Ok(st.records)
  }

  /** Once a line raises, the whole loop raises the same exception. */
  lemma {:induction false} RunStopsAtError(lines: seq<string>, i: nat)
    requires i <= |lines| && Run(lines[..i]).Err?
    ensures Run(lines) == Run(lines[..i])
    decreases |lines| - i
  {
    if i < |lines| {
      assert lines[..i + 1][..i] == lines[..i];
      RunStopsAtError(lines, i + 1);
    } else {
      assert lines[..i] == lines;
    }
  }

  /**
   * `fetch_gpu_status`: fails unless the command succeeded, then walks the
   * lines once, switching between header, statistics and process lines with
   * the flags `titan_line` and `process_block`.
   */
  method FetchGpuStatus(statusCode: int, output: string) returns (r: Result<seq<GpuRecord>, FetchError>)
    ensures r == GpuStatus(statusCode, output)
  {
    if statusCode != 0 {
      return Err(StatusNonZero(statusCode));
    }
    var lines := Split(output, '\n');
    var gpuRecords: seq<GpuRecord> := [];
    var titanLine := false;
    var titanId := 0;
    var processBlock := false;
    var validIds: seq<int> := [];
    var indexedGpus: map<int, nat> := map[];
    for i := 0 to |lines|
      invariant Run(lines[..i]) == Ok(ParserState(gpuRecords, validIds, titanLine, titanId, processBlock, indexedGpus))
    {
      var line := lines[i];
      assert lines[..i + 1][..i] == lines[..i];
      if Contains(line, TitanMarker) {
        var header := HeaderId(line);
        if header.Err? {
          RunStopsAtError(lines, i + 1);
          return Err(header.error);
        }
        titanLine := true;
        titanId := header.value;
      } else if titanLine {
        var record := StatsRecord(line, titanId);
        if record.Err? {
          RunStopsAtError(lines, i + 1);
          return Err(record.error);
        }
        gpuRecords := gpuRecords + [record.value];
        validIds := validIds + [titanId];
        titanLine := false;
      } else if Contains(line, ProcessesMarker) {
        processBlock := true;
        indexedGpus := IndexById(gpuRecords);
      } else if processBlock && !IsSkipped(line) {
        var process := ProcessLine(line);
        if process.Err? {
          RunStopsAtError(lines, i + 1);
          return Err(process.error);
        }
        var (gpuId, entry) := process.value;
        if gpuId in validIds {
          if gpuId !in indexedGpus {
            RunStopsAtError(lines, i + 1);
            return Err(KeyError);
          }
          var j := indexedGpus[gpuId];
          gpuRecords := gpuRecords[j := gpuRecords[j].(processes := gpuRecords[j].processes + [entry])];
        }
      }
    }
    assert lines[..|lines|] == lines;
    match Run(lines)
    case Ok(st) => r := Ok(st.records);
  }

  // ---------------------------------------------------------------------------
  // What the loop computes

  /** Line `i` is read as statistics: the line before it is a header and it is not one itself. */
  predicate IsStatsLine(lines: seq<string>, i: nat) {
    0 < i < |lines| && Contains(lines[i - 1], TitanMarker) && !Contains(lines[i], TitanMarker)
  }

  /** The positions of all statistics lines, in increasing order. */
  function StatsLines(lines: seq<string>): (r: seq<nat>)
    ensures forall k :: 0 <= k < |r| ==> IsStatsLine(lines, r[k])
    ensures forall k, m :: 0 <= k < m < |r| ==> r[k] < r[m]
    ensures forall i :: IsStatsLine(lines, i) ==> i in r
    decreases |lines|
  {
    if |lines| == 0 then []
    else
      var n := |lines|;
      var front := lines[..n - 1];
      assert forall i: nat :: i < n - 1 ==> (IsStatsLine(front, i) <==> IsStatsLine(lines, i));
      StatsLines(front) + (if IsStatsLine(lines, n - 1) then [n - 1] else [])
  }

  /** `rec` is the record built from the header at line `i - 1` and the statistics at line `i`. */
  predicate BuiltFrom(lines: seq<string>, i: nat, rec: GpuRecord)
    requires 0 < i < |lines|
  {
    HeaderId(lines[i - 1]) == Ok(rec.id) && StatsRecord(lines[i], rec.id) == Ok(rec.(processes := []))
  }

  /** Header bookkeeping: `titan_line` is set exactly when the last line was a header, whose id `titan_id` then holds. */
  lemma RunTitanFlag(lines: seq<string>)
    requires Run(lines).Ok?
    ensures Run(lines).value.titanLine <==> |lines| > 0 && Contains(lines[|lines| - 1], TitanMarker)
    ensures Run(lines).value.titanLine ==> HeaderId(lines[|lines| - 1]) == Ok(Run(lines).value.titanId)
  {
  }

  /** `valid_ids` always lists the ids of `gpu_records`, in order. */
  lemma {:induction false} RunValidIds(lines: seq<string>)
    requires Run(lines).Ok?
    ensures Run(lines).value.validIds == Ids(Run(lines).value.records)
    decreases |lines|
  {
    if |lines| > 0 {
      var n := |lines|;
      var front, line := lines[..n - 1], lines[n - 1];
      RunValidIds(front);
      var st0, st := Run(front).value, Run(lines).value;
      if !Contains(line, TitanMarker) && st0.titanLine {
        var rec := StatsRecord(line, st0.titanId).value;
        assert Ids(st.records) == Ids(st0.records) + [rec.id];
      } else {
        assert Ids(st.records) == Ids(st0.records);
      }
    }
  }

  /** A step on a line that is not a statistics line keeps each record's id and statistics. */
  lemma StepKeepsShapes(st0: ParserState, line: string)
    requires WellFormed(st0) && Step(st0, line).Ok?
    requires Contains(line, TitanMarker) || !st0.titanLine
    ensures |Step(st0, line).value.records| == |st0.records|
    ensures forall k :: 0 <= k < |st0.records| ==>
      Step(st0, line).value.records[k].(processes := []) == st0.records[k].(processes := [])
  {
  }

  lemma StepAppendsRecord(st0: ParserState, line: string)
    requires WellFormed(st0) && Step(st0, line).Ok?
    requires !Contains(line, TitanMarker) && st0.titanLine
    ensures StatsRecord(line, st0.titanId).Ok?
    ensures Step(st0, line).value.records == st0.records + [StatsRecord(line, st0.titanId).value]
  {
  }

  /** Records built from the lines before the last one stay built from the same lines. */
  lemma BuiltFromExtend(lines: seq<string>, pos: seq<nat>, recs: seq<GpuRecord>, recs': seq<GpuRecord>)
    requires |lines| > 0 && |pos| == |recs| <= |recs'|
    requires forall k :: 0 <= k < |pos| ==> 0 < pos[k] < |lines| - 1
    requires forall k :: 0 <= k < |pos| ==> BuiltFrom(lines[..|lines| - 1], pos[k], recs[k])
    requires forall k :: 0 <= k < |recs| ==> recs'[k].(processes := []) == recs[k].(processes := [])
    ensures forall k :: 0 <= k < |pos| ==> BuiltFrom(lines, pos[k], recs'[k])
  {
    var front := lines[..|lines| - 1];
    forall k | 0 <= k < |pos|
      ensures BuiltFrom(lines, pos[k], recs'[k])
    {
      assert front[pos[k] - 1] == lines[pos[k] - 1] && front[pos[k]] == lines[pos[k]];
    }
  }

  /**
   * The k-th record was built from the k-th statistics line and the header
   * just before it; there are exactly as many records as statistics lines.
   * Since statistics lines are distinct and each follows its header, each
   * header yields at most one record.
   */
  lemma {:induction false} RunRecordsBuiltFrom(lines: seq<string>)
    requires Run(lines).Ok?
    ensures |Run(lines).value.records| == |StatsLines(lines)|
    ensures forall k :: 0 <= k < |Run(lines).value.records| ==>
      BuiltFrom(lines, StatsLines(lines)[k], Run(lines).value.records[k])
    decreases |lines|
  {
    if |lines| > 0 {
      var front, line := lines[..|lines| - 1], lines[|lines| - 1];
      RunRecordsBuiltFrom(front);
      RunTitanFlag(front);
      var st0 := Run(front).value;
      assert Run(lines) == Step(st0, line);
      if !Contains(line, TitanMarker) && st0.titanLine {
        StepAppendsRecord(st0, line);
        RecordsAfterStatsLine(lines, st0.records, Run(lines).value.records, st0.titanId);
      } else {
        StepKeepsShapes(st0, line);
        RecordsAfterOtherLine(lines, st0.records, Run(lines).value.records);
      }
    }
  }

  lemma RecordsAfterStatsLine(lines: seq<string>, recs: seq<GpuRecord>, recs': seq<GpuRecord>, id: int)
    requires |lines| >= 2
    requires Contains(lines[|lines| - 2], TitanMarker) && HeaderId(lines[|lines| - 2]) == Ok(id)
    requires !Contains(lines[|lines| - 1], TitanMarker)
    requires StatsRecord(lines[|lines| - 1], id).Ok?
    requires recs' == recs + [StatsRecord(lines[|lines| - 1], id).value]
    requires |recs| == |StatsLines(lines[..|lines| - 1])|
    requires forall k :: 0 <= k < |recs| ==> BuiltFrom(lines[..|lines| - 1], StatsLines(lines[..|lines| - 1])[k], recs[k])
    ensures |recs'| == |StatsLines(lines)|
    ensures forall k :: 0 <= k < |recs'| ==> BuiltFrom(lines, StatsLines(lines)[k], recs'[k])
  {
    var n := |lines|;
    var before := StatsLines(lines[..n - 1]);
    assert IsStatsLine(lines, n - 1);
    assert StatsLines(lines) == before + [n - 1];
    BuiltFromExtend(lines, before, recs, recs');
    assert BuiltFrom(lines, n - 1, recs'[|recs|]);
  }

  lemma RecordsAfterOtherLine(lines: seq<string>, recs: seq<GpuRecord>, recs': seq<GpuRecord>)
    requires |lines| >= 1
    requires !(!Contains(lines[|lines| - 1], TitanMarker) && |lines| >= 2 && Contains(lines[|lines| - 2], TitanMarker))
    requires |recs'| == |recs|
    requires forall k :: 0 <= k < |recs| ==> recs'[k].(processes := []) == recs[k].(processes := [])
    requires |recs| == |StatsLines(lines[..|lines| - 1])|
    requires forall k :: 0 <= k < |recs| ==> BuiltFrom(lines[..|lines| - 1], StatsLines(lines[..|lines| - 1])[k], recs[k])
    ensures |recs'| == |StatsLines(lines)|
    ensures forall k :: 0 <= k < |recs'| ==> BuiltFrom(lines, StatsLines(lines)[k], recs'[k])
  {
    var n := |lines|;
    assert !IsStatsLine(lines, n - 1);
    assert StatsLines(lines) == StatsLines(lines[..n - 1]);
    BuiltFromExtend(lines, StatsLines(lines[..n - 1]), recs, recs');
  }

  /** Without a `Processes:` line the process table is never entered and every record keeps an empty process list. */
  lemma {:induction false} NoProcessTableNoProcesses(lines: seq<string>)
    requires Run(lines).Ok?
    requires forall i :: 0 <= i < |lines| ==> !Contains(lines[i], ProcessesMarker)
    ensures !Run(lines).value.processBlock
    ensures forall k :: 0 <= k < |Run(lines).value.records| ==> Run(lines).value.records[k].processes == []
    decreases |lines|
  {
    if |lines| > 0 {
      var n := |lines|;
      NoProcessTableNoProcesses(lines[..n - 1]);
    }
  }

  /**
   * Inside the process table, a decoration line (one of the four prefixes,
   * among them `|    0 `) changes nothing.
   */
  lemma SkippedLineIgnored(st: ParserState, line: string)
    requires WellFormed(st) && st.processBlock && !st.titanLine
    requires !Contains(line, TitanMarker) && !Contains(line, ProcessesMarker) && IsSkipped(line)
    ensures Step(st, line) == Ok(st)
  {
  }

  /**
   * Inside the process table, a process line for a GPU missing from
   * `valid_ids` is dropped; otherwise its entry is appended at the end of the
   * processes of a record with that GPU id, and nothing else changes (or
   * KeyError, when the GPU's header came after the `Processes:` line).
   */
  lemma ProcessLineAttached(st: ParserState, line: string, gpuId: int, entry: ProcessEntry)
    requires WellFormed(st) && st.processBlock && !st.titanLine
    requires !Contains(line, TitanMarker) && !Contains(line, ProcessesMarker) && !IsSkipped(line)
    requires ProcessLine(line) == Ok((gpuId, entry))
    ensures gpuId !in st.validIds ==> Step(st, line) == Ok(st)
    ensures gpuId in st.validIds && gpuId !in st.indexed ==> Step(st, line) == Err(KeyError)
    ensures gpuId in st.validIds && gpuId in st.indexed ==>
      var j := st.indexed[gpuId];
      Step(st, line).Ok? && j < |st.records| && st.records[j].id == gpuId &&
      Step(st, line).value == st.(records := st.records[j := st.records[j].(processes := st.records[j].processes + [entry])])
  {
  }

  // ---------------------------------------------------------------------------
  // Lines laid out as nvidia-smi prints them are read back field for field

  /** A word of a table cell: non-empty, without spaces or column bars. */
  predicate IsWord(w: string) {
    w != "" && ' ' !in w && '|' !in w
  }

  function Spaces(n: nat): (r: string)
    ensures |r| == n && forall k :: 0 <= k < n ==> r[k] == ' '
    decreases n
  {
    if n == 0 then "" else " " + Spaces(n - 1)
  }

  /**
   * A table cell: word `ws[k]` preceded by `pads[k]` spaces and followed by
   * one, then `pads[|ws|]` trailing spaces.
   */
  function Spaced(ws: seq<string>, pads: seq<nat>): string
    requires |pads| == |ws| + 1
    decreases |ws|
  {
    if |ws| == 0 then Spaces(pads[0])
    else Spaces(pads[0]) + ws[0] + " " + Spaced(ws[1..], pads[1..])
  }

  /** `[""]` holds no non-empty token. */
  lemma NonEmptyOfEmptyToken(rest: seq<string>)
    ensures NonEmpty([""] + rest) == NonEmpty(rest)
  {
    NonEmptyConcat([""], rest);
    assert NonEmpty([""]) == NonEmpty([""][..0]) + [];
  }

  lemma {:induction false} WordsOfSpaces(n: nat)
    ensures Words(Spaces(n)) == []
    decreases n
  {
    if n == 0 {
      assert Split(Spaces(0), ' ') == [""];
      NonEmptyOfEmptyToken([]);
    } else {
      WordsOfSpaces(n - 1);
      var t := Spaces(n - 1);
      assert Spaces(n)[1..] == t;
      assert Split(Spaces(n), ' ') == [""] + Split(t, ' ');
      NonEmptyOfEmptyToken(Split(t, ' '));
    }
  }

  lemma {:induction false} WordsAfterSpaces(n: nat, w: string, rest: string)
    requires w != "" && ' ' !in w
    ensures Words(Spaces(n) + w + " " + rest) == [w] + Words(rest)
    decreases n
  {
    var s := Spaces(n) + w + " " + rest;
    if n == 0 {
      assert s == w + [' '] + rest;
      WordThenRest(w, rest);
    } else {
      var t := Spaces(n - 1) + w + " " + rest;
      WordsAfterSpaces(n - 1, w, rest);
      assert s[0] == ' ' && s[1..] == t;
      assert Split(s, ' ') == [""] + Split(t, ' ');
      NonEmptyOfEmptyToken(Split(t, ' '));
    }
  }

  lemma WordThenRest(w: string, rest: string)
    requires w != "" && ' ' !in w
    ensures Words(w + [' '] + rest) == [w] + Words(rest)
  {
    SplitConcat(w, rest, ' ');
    SplitWhole(w, ' ');
    NonEmptyConcat([w], Split(rest, ' '));
    assert NonEmpty([w]) == NonEmpty([w][..0]) + [w];
  }

  /** The words of a cell are the words it was laid out from. */
  lemma {:induction false} WordsOfSpaced(ws: seq<string>, pads: seq<nat>)
    requires |pads| == |ws| + 1
    requires forall k :: 0 <= k < |ws| ==> IsWord(ws[k])
    ensures Words(Spaced(ws, pads)) == ws
    ensures '|' !in Spaced(ws, pads)
    decreases |ws|
  {
    if |ws| == 0 {
      WordsOfSpaces(pads[0]);
    } else {
      WordsOfSpaced(ws[1..], pads[1..]);
      WordsAfterSpaces(pads[0], ws[0], Spaced(ws[1..], pads[1..]));
      assert [ws[0]] + ws[1..] == ws;
    }
  }

  lemma NatToStringIsWord(n: nat)
    ensures IsWord(NatToString(n))
  {
    var d := NatToString(n);
    assert forall k :: 0 <= k < |d| ==> IsDigit(d[k]);
  }

  /** A table row: each cell opened by a column bar, then a closing bar and `tail`. */
  function Row(cells: seq<string>, tail: string): (r: string)
    ensures |r| >= 1 && r[0] == '|'
    decreases |cells|
  {
    if |cells| == 0 then "|" + tail else "|" + cells[0] + Row(cells[1..], tail)
  }

  /** Splitting a row at its bars gives the empty text before the first bar, the cells, then the pieces of the tail. */
  lemma {:induction false} SplitRow(cells: seq<string>, tail: string)
    requires forall k :: 0 <= k < |cells| ==> '|' !in cells[k]
    ensures Split(Row(cells, tail), '|') == [""] + (cells + Split(tail, '|'))
    decreases |cells|
  {
    if |cells| == 0 {
      SplitAfterBar(tail);
    } else {
      SplitRow(cells[1..], tail);
      SplitRowCons(cells, tail);
    }
  }

  lemma SplitRowCons(cells: seq<string>, tail: string)
    requires |cells| >= 1 && '|' !in cells[0]
    requires Split(Row(cells[1..], tail), '|') == [""] + (cells[1..] + Split(tail, '|'))
    ensures Split(Row(cells, tail), '|') == [""] + (cells + Split(tail, '|'))
  {
    var after, rest := Row(cells[1..], tail), cells[1..] + Split(tail, '|');
    assert Row(cells, tail) == "|" + cells[0] + after;
    SplitRowStep(cells[0], after, rest);
    assert cells == [cells[0]] + cells[1..];
    assert [cells[0]] + rest == cells + Split(tail, '|');
  }

  lemma DropLeadingBar(after: string, pieces: seq<string>)
    requires |after| >= 1 && after[0] == '|'
    requires Split(after, '|') == [""] + pieces
    ensures Split(after[1..], '|') == pieces
  {
    assert after == "|" + after[1..];
    SplitAfterBar(after[1..]);
    var a, b := [""] + Split(after[1..], '|'), [""] + pieces;
    assert a[1..] == Split(after[1..], '|') && b[1..] == pieces;
  }

  lemma SplitRowStep(x: string, after: string, pieces: seq<string>)
    requires '|' !in x
    requires |after| >= 1 && after[0] == '|'
    requires Split(after, '|') == [""] + pieces
    ensures Split("|" + x + after, '|') == [""] + ([x] + pieces)
  {
    DropLeadingBar(after, pieces);
    assert "|" + x + after == "|" + x + "|" + after[1..];
    SplitCellThenRow(x, after[1..]);
  }

  lemma SplitAfterBar(t: string)
    ensures Split("|" + t, '|') == [""] + Split(t, '|')
  {
    assert ("|" + t)[1..] == t;
  }

  lemma SplitCellThenRow(x: string, t: string)
    requires '|' !in x
    ensures Split("|" + x + "|" + t, '|') == [""] + ([x] + Split(t, '|'))
  {
    assert "|" + x + "|" + t == [] + ['|'] + (x + ['|'] + t);
    SplitConcat([], x + ['|'] + t, '|');
    SplitConcat(x, t, '|');
    SplitWhole(x, '|');
  }

  /**
   * A header line `|  <id> <words...> | <tail>` is read as the GPU with that id.
   */
  lemma HeaderIdRoundTrip(id: nat, ws: seq<string>, pads: seq<nat>, tail: string)
    requires |pads| == |ws| + 2
    requires forall k :: 0 <= k < |ws| ==> IsWord(ws[k])
    ensures HeaderId(Row([Spaced([NatToString(id)] + ws, pads)], tail)) == Ok(id)
  {
    var cell := Spaced([NatToString(id)] + ws, pads);
    var line := Row([cell], tail);
    NatToStringIsWord(id);
    WordsOfSpaced([NatToString(id)] + ws, pads);
    SplitRow([cell], tail);
    ParseIntNatToString(id);
    HeaderIdOfCell(line, cell, id);
  }

  lemma HeaderIdOfCell(line: string, cell: string, id: int)
    requires |Split(line, '|')| >= 2 && Split(line, '|')[1] == cell
    requires |Words(cell)| >= 1 && ParseInt(Words(cell)[0]) == Some(id)
    ensures HeaderId(line) == Ok(id)
  {
  }

  /**
   * A statistics line `| fan temp ... power ... | used / <total>MiB | util ... |`
   * is read as the record of those fields, with the total memory in MiB.
   */
  lemma StatsRecordRoundTrip(
    id: int, physicals: seq<string>, physicalPads: seq<nat>, used: string, total: nat, memoryPads: seq<nat>,
    usage: seq<string>, usagePads: seq<nat>)
    requires |physicals| >= 4 && |physicalPads| == |physicals| + 1
    requires |usage| >= 1 && |usagePads| == |usage| + 1
    requires |memoryPads| == 4 && total > 0
    requires forall k :: 0 <= k < |physicals| ==> IsWord(physicals[k])
    requires forall k :: 0 <= k < |usage| ==> IsWord(usage[k])
    requires IsWord(used)
    ensures StatsRecord(Row([Spaced(physicals, physicalPads), Spaced([used, "/", NatToString(total) + "MiB"], memoryPads),
      Spaced(usage, usagePads)], ""), id)
      == Ok(GpuRecord(id, Physicals(physicals[0], physicals[1], physicals[3]), used, total, usage[0], []))
  {
    var a, b, c := Spaced(physicals, physicalPads), Spaced([used, "/", NatToString(total) + "MiB"], memoryPads),
      Spaced(usage, usagePads);
    WordsOfSpaced(physicals, physicalPads);
    WordsOfSpaced(usage, usagePads);
    MemoryCellRoundTrip(used, total, memoryPads);
    SplitThreeCells(a, b, c);
    StatsRecordOfCells(Row([a, b, c], ""), id, a, b, c);
  }

  /** The memory cell `used / <total>MiB` reads back as its three words, the total in MiB. */
  lemma MemoryCellRoundTrip(used: string, total: nat, pads: seq<nat>)
    requires IsWord(used) && |pads| == 4
    ensures Words(Spaced([used, "/", NatToString(total) + "MiB"], pads)) == [used, "/", NatToString(total) + "MiB"]
    ensures ParseInt(DropLast(NatToString(total) + "MiB", 3)) == Some(total)
    ensures '|' !in Spaced([used, "/", NatToString(total) + "MiB"], pads)
  {
    var totalWord := NatToString(total) + "MiB";
    NatToStringIsWord(total);
    assert IsWord(totalWord);
    assert DropLast(totalWord, 3) == NatToString(total);
    ParseIntNatToString(total);
    WordsOfSpaced([used, "/", totalWord], pads);
  }

  /** A row of three cells and no tail splits into the cells between two empty pieces. */
  lemma SplitThreeCells(a: string, b: string, c: string)
    requires '|' !in a && '|' !in b && '|' !in c
    ensures Split(Row([a, b, c], ""), '|') == ["", a, b, c, ""]
  {
    SplitRow([a, b, c], "");
    assert Split("", '|') == [""];
  }

  lemma StatsRecordOfCells(line: string, id: int, a: string, b: string, c: string)
    requires Split(line, '|') == ["", a, b, c, ""]
    requires |Words(a)| >= 4 && |Words(b)| >= 3 && |Words(c)| >= 1
    requires ParseInt(DropLast(Words(b)[2], 3)).Some? && ParseInt(DropLast(Words(b)[2], 3)).value != 0
    ensures StatsRecord(line, id) == Ok(GpuRecord(id, Physicals(Words(a)[0], Words(a)[1], Words(a)[3]),
      Words(b)[0], ParseInt(DropLast(Words(b)[2], 3)).value, Words(c)[0], []))
  {
    var fields := Split(line, '|');
    assert fields[1] == a && fields[2] == b && fields[3] == c && |fields| == 5;
  }

  /**
   * A process line `|  <gpu>  <pid>  <type>  <name>  <memory> |` is read as
   * that GPU id and that process entry.
   */
  lemma ProcessLineRoundTrip(gpuId: nat, pid: nat, ptype: string, name: string, memUsage: string, pads: seq<nat>)
    requires |pads| == 6
    requires IsWord(ptype) && IsWord(name) && IsWord(memUsage)
    ensures ProcessLine(Row([Spaced([NatToString(gpuId), NatToString(pid), ptype, name, memUsage], pads)], ""))
      == Ok((gpuId, ProcessEntry(pid, ptype, name, memUsage)))
  {
    var ws := [NatToString(gpuId), NatToString(pid), ptype, name, memUsage];
    var cell := Spaced(ws, pads);
    var line := Row([cell], "");
    NatToStringIsWord(gpuId);
    NatToStringIsWord(pid);
    WordsOfSpaced(ws, pads);
    SplitRow([cell], "");
    assert Split("", '|') == [""];
    assert Split(line, '|') == ["", cell, ""];
    NonEmptyOfRowCell(cell);
    ParseIntNatToString(gpuId);
    ParseIntNatToString(pid);
    ProcessLineOfCell(line, cell);
  }

  /** The only non-empty field of `|<cell>|` is the cell, when it holds a word. */
  lemma NonEmptyOfRowCell(cell: string)
    requires |Words(cell)| >= 1
    ensures NonEmpty(["", cell, ""]) == [cell]
  {
    assert ["", cell, ""] == [""] + [cell, ""];
    NonEmptyOfEmptyToken([cell, ""]);
    assert NonEmpty([cell, ""]) == NonEmpty([cell]) + [];
    assert NonEmpty([cell]) == NonEmpty([cell][..0]) + [cell];
  }

  lemma ProcessLineOfCell(line: string, cell: string)
    requires NonEmpty(Split(line, '|')) == [cell] && |Words(cell)| == 5
    requires ParseInt(Words(cell)[0]).Some? && ParseInt(Words(cell)[1]).Some?
    ensures ProcessLine(line) == Ok((ParseInt(Words(cell)[0]).value,
      ProcessEntry(ParseInt(Words(cell)[1]).value, Words(cell)[2], Words(cell)[3], Words(cell)[4])))
  {
  }

  /**
   * A process line of GPU 0, with the id in the column nvidia-smi gives it,
   * starts with the skipped prefix `|    0 `: inside the process table it is
   * ignored (see SkippedLineIgnored), so GPU 0 never gets a process entry.
   */
  lemma GpuZeroProcessLineSkipped(pid: nat, ptype: string, name: string, memUsage: string, pads: seq<nat>)
    requires |pads| == 6 && pads[0] == 4
    ensures IsSkipped(Row([Spaced([NatToString(0), NatToString(pid), ptype, name, memUsage], pads)], ""))
  {
    var ws := [NatToString(0), NatToString(pid), ptype, name, memUsage];
    var rest := Spaced(ws[1..], pads[1..]);
    assert NatToString(0) == "0" && Spaces(4) == "    ";
    assert Spaced(ws, pads) == "    " + "0" + " " + rest;
    var cell := Spaced(ws, pads);
    assert Row([cell], "") == "|" + cell + Row([], "");
    assert Row([cell], "") == "|    0 " + (rest + "|");
    var line := Row([cell], "");
    assert line[..7] == "|    0 ";
  }

  /*
   * Sample rows of an nvidia-smi table for one TITAN X (Pascal) card, laid
   * out with Row and Spaced. The header row names GPU 1 and its model in the
   * first cell; its bus id, display and ECC cells are kept as an opaque tail.
   */
  const SampleHeader := Row([Spaced(["1", "TITAN", "X", "(Pascal)", "Off"], [3, 1, 0, 0, 3, 1])],
    " 0000:03:00.0     Off |                  N/A |")

  /**
   * The statistics row under that header: fan, temperature, performance state
   * and power in the first cell, 2291 of 12189 MiB of memory used in the
   * second, utilisation and compute mode in the third.
   */
  const SampleStats := Row([
    Spaced(["79%", "87C", "P2", "221W", "/", "250W"], [1, 2, 3, 2, 0, 0, 0]),
    Spaced(["2291MiB", "/", NatToString(12189) + "MiB"], [3, 0, 0, 0]),
    Spaced(["100%", "Default"], [4, 5, 0])], "")

  /**
   * A process-table row: a compute process `python` with pid 89398 on GPU 1
   * using 2289 MiB.
   */
  const SampleProcess := Row([Spaced([NatToString(1), NatToString(89398), "C", "python", "2289MiB"], [4, 4, 3, 2, 39, 0])], "")

  /** The sample header line is read as GPU 1. */
  lemma SampleHeaderLine()
    ensures HeaderId(SampleHeader) == Ok(1)
  {
    HeaderIdRoundTrip(1, ["TITAN", "X", "(Pascal)", "Off"], [3, 1, 0, 0, 3, 1], " 0000:03:00.0     Off |                  N/A |");
  }

  /** The sample statistics line is read as a GPU with 12189 MiB of memory in total. */
  lemma SampleStatsLine()
    ensures StatsRecord(SampleStats, 1) == Ok(GpuRecord(1, Physicals("79%", "87C", "221W"), "2291MiB", 12189, "100%", []))
  {
    StatsRecordRoundTrip(1, ["79%", "87C", "P2", "221W", "/", "250W"], [1, 2, 3, 2, 0, 0, 0],
      "2291MiB", 12189, [3, 0, 0, 0], ["100%", "Default"], [4, 5, 0]);
  }

  /** The sample process line is read as process 89398 on GPU 1. */
  lemma SampleProcessLine()
    ensures ProcessLine(SampleProcess) == Ok((1, ProcessEntry(89398, "C", "python", "2289MiB")))
  {
    ProcessLineRoundTrip(1, 89398, "C", "python", "2289MiB", [4, 4, 3, 2, 39, 0]);
  }
}
