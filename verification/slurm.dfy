/**
 * ipp_tools/slurm.py: `process_resource_spec`, and the job name and default
 * log path that `slurm_map` derives before rendering its launch script.
 */
module Slurm {
  import opened Wrappers
  import opened Strings

  /** `default_spec`: every key a resource spec may have, with its default value. */
  const DefaultSpec: map<string, int> :=
    map["n_workers" := 1, "worker_n_cpus" := 4, "worker_n_gpus" := 0, "worker_mem_mb" := 32000]

  /** The `assert` statements of slurm.py fail with AssertionError. */
  datatype SlurmError = AssertionError

  /**
   * `process_resource_spec`: rejects a spec with a key outside the defaults,
   * otherwise overlays the supplied values on the defaults.
   */
  function ProcessResourceSpec(spec: map<string, int>): (r: Result<map<string, int>, SlurmError>)
    ensures r.Ok? <==> spec.Keys <= DefaultSpec.Keys
    ensures r.Ok? ==> r.value.Keys == DefaultSpec.Keys
    ensures r.Ok? ==> forall k :: k in spec ==> r.value[k] == spec[k]
    ensures r.Ok? ==> forall k :: k in DefaultSpec && k !in spec ==> r.value[k] == DefaultSpec[k]
  {
    if spec.Keys <= DefaultSpec.Keys then Ok(DefaultSpec + spec) else Err(AssertionError)
  }

  /** Processing an already processed spec returns it unchanged. */
  lemma ProcessResourceSpecIdempotent(spec: map<string, int>)
    requires ProcessResourceSpec(spec).Ok?
    ensures ProcessResourceSpec(ProcessResourceSpec(spec).value) == ProcessResourceSpec(spec)
  {
    var r := ProcessResourceSpec(spec).value;
    assert DefaultSpec + r == r;
  }

  /** With nothing supplied, the result is one worker with 4 CPUs, no GPU and 32000 MB. */
  lemma ProcessEmptyResourceSpec()
    ensures ProcessResourceSpec(map[]) == Ok(DefaultSpec)
    ensures DefaultSpec["n_workers"] == 1 && DefaultSpec["worker_n_cpus"] == 4
    ensures DefaultSpec["worker_n_gpus"] == 0 && DefaultSpec["worker_mem_mb"] == 32000
  {
    assert DefaultSpec + map[] == DefaultSpec;
  }

  /** A Python argument of `slurm_map` that may be `None`, a `str`, or an object of another type. */
  datatype Arg = NoneArg | Str(text: string) | NotStr

  const JobNameSuffix: string := "_slurm_map"

  /**
   * The job name of `slurm_map`: derived from the mapped function's name when
   * none is given; a given name must be a `str` and is used unchanged.
   */
  function JobName(fncName: string, jobName: Arg): (r: Result<string, SlurmError>)
    ensures jobName.NotStr? <==> r.Err?
    ensures jobName.Str? ==> r == Ok(jobName.text)
    ensures jobName.NoneArg? ==> r.Ok? && StartsWith(r.value, fncName)
    ensures jobName.NoneArg? ==> r.Ok? && |r.value| == |fncName| + |JobNameSuffix| && r.value[|fncName|..] == JobNameSuffix
  {
    match jobName
    case NoneArg => Ok(fncName + JobNameSuffix)
    case Str(text) => Ok(text)
    case NotStr => Err(AssertionError)
  }

  /** Dropping the suffix from a derived job name gives back the function name. */
  lemma DerivedJobNameRecoversFunction(fncName: string)
    ensures JobName(fncName, NoneArg).Ok?
    ensures DropLast(JobName(fncName, NoneArg).value, |JobNameSuffix|) == fncName
  {
    var name := JobName(fncName, NoneArg).value;
    assert name[..|fncName|] == fncName;
  }

  /**
   * The log path of `slurm_map`: `<logDir>/<job name>_<submission time>` when
   * none is given, where `logDir` is `~/logs/slurm` expanded; a given path
   * must be a `str` and is used unchanged.
   */
  function OutputPath(logDir: string, jobName: string, submissionTime: string, outputPath: Arg): (r: Result<string, SlurmError>)
    ensures outputPath.NotStr? <==> r.Err?
    ensures outputPath.Str? ==> r == Ok(outputPath.text)
    ensures outputPath.NoneArg? ==> r.Ok? && Split(r.value, '/') == Split(logDir, '/') + Split(jobName + "_" + submissionTime, '/')
  {
    match outputPath
    case NoneArg =>
      var path := logDir + "/" + jobName + "_" + submissionTime;
      SplitConcat(logDir, jobName + "_" + submissionTime, '/');
      assert path == logDir + ['/'] + (jobName + "_" + submissionTime);
      Ok(path)
    case Str(text) => Ok(text)
    case NotStr => Err(AssertionError)
  }

  /**
   * When neither the job name nor the submission time holds a '/', the
   * default log file lies directly inside the log directory, named
   * `<job name>_<submission time>`.
   */
  lemma DefaultOutputPathInLogDir(logDir: string, jobName: string, submissionTime: string)
    requires '/' !in jobName && '/' !in submissionTime
    ensures OutputPath(logDir, jobName, submissionTime, NoneArg).Ok?
    ensures Split(OutputPath(logDir, jobName, submissionTime, NoneArg).value, '/')
         == Split(logDir, '/') + [jobName + "_" + submissionTime]
  {
    SplitWhole(jobName + "_" + submissionTime, '/');
  }

  /** Two runs of the same job submitted at different times get different default log paths. */
  lemma DefaultOutputPathsDistinct(logDir: string, jobName: string, time1: string, time2: string)
    requires time1 != time2
    ensures OutputPath(logDir, jobName, time1, NoneArg) != OutputPath(logDir, jobName, time2, NoneArg)
  {
    var p1 := OutputPath(logDir, jobName, time1, NoneArg).value;
    var p2 := OutputPath(logDir, jobName, time2, NoneArg).value;
    var n := |logDir + "/" + jobName + "_"|;
    assert p1[n..] == time1;
    assert p2[n..] == time2;
  }
}
