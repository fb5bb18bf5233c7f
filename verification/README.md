# ipp-tools: device assignment, nvidia-smi parsing, resource specs and package path

This project models the deterministic core of `ipp_tools`. That library starts
ipyparallel engines on a Slurm cluster and binds each engine to one GPU.
Four pieces of it are modelled:

- **Per-host GPU assignment** (`Mappers`, from `ipp_tools/mappers.py`).
  - The engine host names are walked once, with a running count per host.
  - Each engine gets `/gpu:k`, where `k` is the number of earlier engines on
    its host.
  - Unless engine overlap is allowed, the per-host engine counts are then
    checked against the `WS_N_GPUS` table.
  - The check visits the hosts in the dictionary's iteration order and stops
    at the first host that is over-provisioned or missing from the table.
  - An over-provisioned host is only logged: the AssertionError is caught.
  - A host missing from the table raises KeyError, which nothing catches,
    when the check reaches it before any over-provisioned host.
  - The assignment loop is a method with loop invariants, proved against the
    function `DeviceIndex` (the number of earlier engines on the same host).
- **The `nvidia-smi` parser** (`Gpu`, from `ipp_tools/gpu.py`).
  - `fetch_gpu_status` is a method that walks the output lines with the
    `titan_line` and `process_block` flags, and `_strip_empty_str` is a
    filtering loop.
  - Both are proved equal to functional specifications: `Run` folds `Step`
    over the lines, and `NonEmpty` filters out empty tokens.
  - Lemmas then state what those specifications compute:
    - records come from header/statistics line pairs;
    - `valid_ids` mirrors the record ids;
    - decoration lines are skipped;
    - process lines are attached by GPU id;
    - lines laid out as nvidia-smi prints them read back field for field.
- **Resource specs and job naming** (`Slurm`, from `ipp_tools/slurm.py`).
  - `process_resource_spec` overlays the supplied values on the defaults and
    rejects unknown keys.
  - Also modelled: the job name and default log path that `slurm_map` derives.
- **Package path** (`Utils`, from `ipp_tools/utils.py`).
  - `package_path` finds the first search-path entry that contains
    `ipp-tools`, cuts it there and re-appends `ipp-tools`.
  - The search path is a parameter.

`Strings` models the Python string built-ins these use: `split` on one
character, `in`, `startswith`, `s[:-n]`, `int()` and `str()` of a natural
number. `Wrappers` holds `Option` and `Result`. A raised exception is the
`Err` case of a `Result`.

## Model

| member | source | states |
|---|---|---|
| Utils.FirstContaining | ipp_tools/utils.py:12 | the index found is of an entry containing the text, and no earlier entry contains it; None exactly when no entry does |
| Utils.PackagePath | ipp_tools/utils.py:12-16 | fails (IndexError) exactly when no search-path entry contains `ipp-tools`, so the later `None` check is unreachable |
| Utils.PackagePathIsPrefixOfFirstMatch | ipp_tools/utils.py:12-16 | when entry i is the first containing `ipp-tools`, the result exists, is a prefix of entry i and ends with `ipp-tools` |
| Utils.PackagePathOccursOnceAtEnd | ipp_tools/utils.py:15-16 | `ipp-tools` occurs in the result at a position j if and only if j is the very end |
| Slurm.ProcessResourceSpec | ipp_tools/slurm.py:111-122 | succeeds iff every supplied key is a default key; the result has exactly the four default keys, supplied values override, the others keep their defaults |
| Slurm.ProcessResourceSpecIdempotent | ipp_tools/slurm.py:111-122 | processing an already processed spec returns it unchanged |
| Slurm.ProcessEmptyResourceSpec | ipp_tools/slurm.py:114-119 | an empty spec gives the defaults 1, 4, 0 and 32000 |
| Slurm.JobName | ipp_tools/slurm.py:66-69 | with no name, the function name followed by `_slurm_map`; a given string is used unchanged; a non-string fails the assertion |
| Slurm.DerivedJobNameRecoversFunction | ipp_tools/slurm.py:66-67 | dropping the suffix from a derived job name gives back the function name |
| Slurm.OutputPath | ipp_tools/slurm.py:71-78 | with no path, splitting at `/` gives the log directory's pieces followed by those of `<job>_<time>`; a given string is used unchanged; a non-string fails |
| Slurm.DefaultOutputPathInLogDir | ipp_tools/slurm.py:71-73 | when job name and time hold no `/`, the default log file lies directly in the log directory, named `<job>_<time>` |
| Slurm.DefaultOutputPathsDistinct | ipp_tools/slurm.py:73 | two submission times give two different default log paths |
| Mappers.WsNGpusTable | ipp_tools/mappers.py:14-23 | the table knows exactly the eight hosts, 2 GPUs for each `turagas-ws` workstation and 8 for each `c04u` node |
| Mappers.DeviceNameRoundTrip | ipp_tools/mappers.py:99 | the index can be read back from `/gpu:<k>`, so distinct indices give distinct names |
| Mappers.DeviceName | ipp_tools/mappers.py:99-102 | a device name is `/gpu:` followed by the decimal digits of the index |
| Mappers.AssignDevices | ipp_tools/mappers.py:93-103 | one device per engine, in order; engine i gets `/gpu:<number of earlier engines on its host>`; the counter map has exactly the hosts as keys, each mapped to its engine count |
| Mappers.DeviceIndexIncreasing | ipp_tools/mappers.py:97-103 | a later engine on the same host gets a strictly higher index |
| Mappers.DeviceNamesDistinctOnHost | ipp_tools/mappers.py:97-103 | no two engines on the same host get the same device name |
| Mappers.DeviceIndicesOnHost | ipp_tools/mappers.py:97-103 | the indices given on a host with n engines are exactly 0 .. n-1 |
| Mappers.ThreeEngineExample | ipp_tools/mappers.py:97-103 | hosts A, A, B get `/gpu:0`, `/gpu:1`, `/gpu:0` |
| Mappers.CheckCapacity | ipp_tools/mappers.py:110-114 | within capacity iff every host fits its table entry; otherwise names the first host in iteration order that is over capacity or unknown |
| Mappers.AssignAndCheck | ipp_tools/mappers.py:93-114 | assigns as above; with overlap allowed nothing is checked; with all hosts known the critical message is logged iff some host has more engines than GPUs; when the check fails, the first failing host in iteration order decides: KeyError naming it if it is unknown, the logged message if it is over capacity, every earlier host being known and within capacity |
| Mappers.WithinCapacityDevicesExist | ipp_tools/mappers.py:107-112 | when every host fits, each engine's index is below its host's GPU count |
| Gpu.StripEmptyStr | ipp_tools/gpu.py:105-110 | the loop returns the non-empty tokens of its input (NonEmpty) |
| Gpu.NonEmptyConcat | ipp_tools/gpu.py:105-110 | filtering distributes over concatenation, so kept tokens stay in input order |
| Gpu.NonEmptyMultiset | ipp_tools/gpu.py:105-110 | exactly the empty tokens are removed; every other token keeps its count |
| Gpu.NonEmptyKeepsTokens | ipp_tools/gpu.py:105-110 | every token left is a non-empty token of the input: no empty token is left |
| Gpu.NonEmptyIdempotent | ipp_tools/gpu.py:105-110 | stripping twice equals stripping once |
| Gpu.Words | ipp_tools/gpu.py:56-58 | every word of a cell is non-empty and holds no space |
| Gpu.HeaderId | ipp_tools/gpu.py:49 | a header's id is the integer of the first word of its second bar-separated field |
| Gpu.StatsRecord | ipp_tools/gpu.py:53-71 | the line has five bar-separated fields; the record carries the header's id, no processes, and the integer of the third memory word without its last three characters as total memory |
| Gpu.ProcessLine | ipp_tools/gpu.py:91-93 | the first non-empty bar-separated field has five words; GPU id and pid are the integers of the first two, type, name and memory the others |
| Gpu.IndexById | ipp_tools/gpu.py:81 | the keys are exactly the record ids; each maps to a record with that id, the last one with it |
| Gpu.Attach | ipp_tools/gpu.py:101 | appends the entry to one record's processes and leaves everything else as it was |
| Gpu.Step | ipp_tools/gpu.py:44-102 | one loop iteration keeps every `indexed_gpus` entry pointing at a record with its id |
| Gpu.Run | ipp_tools/gpu.py:44-102 | the loop over a prefix of the lines keeps that same invariant |
| Gpu.GpuStatus | ipp_tools/gpu.py:32-103 | a non-zero exit status fails with no records; on success there are exactly as many records as statistics lines, the k-th built from the k-th statistics line and the header before it |
| Gpu.FetchGpuStatus | ipp_tools/gpu.py:32-103 | the imperative loop returns or raises exactly what the line-by-line specification GpuStatus gives |
| Gpu.RunStopsAtError | ipp_tools/gpu.py:44-102 | once a line raises, the whole loop raises that exception |
| Gpu.RunTitanFlag | ipp_tools/gpu.py:47-50 | `titan_line` is set iff the last line was a header, and `titan_id` then holds that header's id |
| Gpu.RunValidIds | ipp_tools/gpu.py:72-73 | `valid_ids` always equals the ids of `gpu_records`, in order |
| Gpu.StatsLines | ipp_tools/gpu.py:47-75 | lists, in increasing order, exactly the positions of lines that follow a header and are not headers themselves |
| Gpu.StepAppendsRecord | ipp_tools/gpu.py:53-75 | the line after a header appends exactly the record built from it |
| Gpu.RunRecordsBuiltFrom | ipp_tools/gpu.py:47-75 | there are as many records as statistics lines, and the k-th record was built from the k-th statistics line and the header before it, so each header yields at most one record |
| Gpu.NoProcessTableNoProcesses | ipp_tools/gpu.py:79-101 | without a `Processes:` line the process block is never entered and every record keeps an empty process list |
| Gpu.IsSkipped | ipp_tools/gpu.py:87-89 | a line is skipped iff it starts with one of the four `disallowed_lines`; a skipped line starts with `+` or a bar and has at least five characters |
| Gpu.SkippedLineIgnored | ipp_tools/gpu.py:86-90 | in the process block, a line with one of the four skipped prefixes changes nothing |
| Gpu.GpuZeroProcessLineSkipped | ipp_tools/gpu.py:87-90 | a process line of GPU 0 in nvidia-smi's layout starts with the skipped prefix (bar, four spaces, `0`, space) |
| Gpu.ProcessLineAttached | ipp_tools/gpu.py:91-101 | a process of a GPU not in `valid_ids` is dropped; otherwise its entry goes at the end of the processes of the record `indexed_gpus` names for that id, and nothing else changes, or KeyError when the GPU's header came after `Processes:` |
| Gpu.WordsOfSpaced | ipp_tools/gpu.py:56-58 | the space-separated words of a padded cell are the words it was laid out from |
| Gpu.SplitRow | ipp_tools/gpu.py:54 | splitting a table row at its bars gives an empty piece, the cells, then the pieces of the tail |
| Gpu.HeaderIdRoundTrip | ipp_tools/gpu.py:47-49 | a header row whose first cell starts with `str(id)` reads back as that id |
| Gpu.StatsRecordRoundTrip | ipp_tools/gpu.py:53-71 | a statistics row laid out from its fields reads back as the record of those fields, with the printed total memory |
| Gpu.ProcessLineRoundTrip | ipp_tools/gpu.py:91-93 | a process row laid out from GPU id, pid, type, name and memory reads back as those values |
| Gpu.SampleHeaderLine | ipp_tools/gpu.py:46-49 | the sample TITAN X header row is GPU 1 |
| Gpu.SampleStatsLine | ipp_tools/gpu.py:52-71 | the sample statistics row gives fan 79%, 87C, 221W, 2291MiB used of 12189 MiB, 100% utilisation |
| Gpu.SampleProcessLine | ipp_tools/gpu.py:85-99 | the sample process row is pid 89398, type C, `python`, 2289MiB, on GPU 1 |

## Left out

- Floating point is not modelled. `memory_frac`, `usage_frac` and `mem_frac` (ipp_tools/gpu.py:66, 68, 99) are kept as the printed tokens they are computed from.
  - `float()` failing on a used-memory, utilisation or process-memory token is not modelled.
  - Gpu.StatsRecord: a total such as `0.0MiB` is a ValueError in the model, but Python raises ZeroDivisionError at line 66 before `int()` runs at line 67. Only a total of exactly 0 gives ZeroDivisionError in the model.
- Gpu.Step: the KeyError at ipp_tools/gpu.py:99 is raised without first evaluating `float(mem_usage[:-3])`, whose ValueError Python would raise first.
- `int()` is modelled for tokens without spaces (the only ones the parser passes it): an optional sign and decimal digits. Python's tolerance of surrounding whitespace is not modelled.
- Python 2's `tok is not ''` is taken as `tok != ''`, that is, CPython's interning of the empty string.
- Running `nvidia-smi` (ipp_tools/gpu.py:36-37) is not modelled: its exit status and output text are parameters.
- Mappers.CheckCapacity: the order of Python 2 dict iteration is unspecified, so the visiting order is a parameter. The logging of each host's count is not modelled.
- Mappers.AssignAndCheck: `logger.critical` is modelled as a flag in the result. The host names the engines report over the network are an input.
- The rest of `gpu_job_runner` is not modelled (ipp_tools/mappers.py:48-90, 116-153): the ipyparallel client, the `inspect.getargspec` check, push/pull verification with its retry loop, job dispatch and polling. They are remote calls, reflection and timing.
- Both copies of `assigned_gpu_is_free` (ipp_tools/mappers.py:25-46, ipp_tools/gpu.py:7-28) are not modelled. They compare floats from a subprocess; their `gpu_id not in gpu_id` test on an int raises TypeError, and the "free" path returns `None`.
- The rest of `slurm_map` is not modelled:
  - subprocess launches and sleeps;
  - reading the template file and rendering it;
  - the `os.makedirs(output_path)` call (ipp_tools/slurm.py:75-76), which creates the log file's own path as a directory, with its parents, when `~/logs/slurm` is missing;
  - `assert os.path.exists(output_path)` on a given path.
- Slurm.OutputPath: the home-directory expansion of `~/logs/slurm` and the submission time are parameters.
- `find_free_profile` is not part of this model. ipp_tools/slurm.py:9 imports it from `ipp_tools.utils`, which does not define it, so importing `ipp_tools.slurm` as written raises ImportError. `log_tools.py` (logging setup) and `setup.py` (packaging) are not modelled.
