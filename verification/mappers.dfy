/**
 * ipp_tools/mappers.py, the deterministic part of `gpu_job_runner`: giving
 * each engine a GPU on its host, and the check of engines per host against
 * the GPU table. The engine host names, which `gpu_job_runner` collects from
 * the engines over the network, are an input here.
 */
module Mappers {
  import opened Wrappers
  import opened Strings

  /** `WS_N_GPUS`: the number of GPUs of each known workstation or cluster node. */
  const WsNGpus: map<string, nat> := map[
    "turagas-ws1" := 2, "turagas-ws2" := 2, "turagas-ws3" := 2, "turagas-ws4" := 2,
    "c04u01" := 8, "c04u07" := 8, "c04u12" := 8, "c04u17" := 8]

  /** The four `turagas-ws` workstations have 2 GPUs each, the four `c04u` nodes 8 each, and no other host is known. */
  lemma WsNGpusTable()
    ensures WsNGpus.Keys == {"turagas-ws1", "turagas-ws2", "turagas-ws3", "turagas-ws4", "c04u01", "c04u07", "c04u12", "c04u17"}
    ensures forall h :: h in WsNGpus ==> WsNGpus[h] == if StartsWith(h, "turagas-ws") then 2 else 8
  {
    assert StartsWith("turagas-ws1", "turagas-ws") && StartsWith("turagas-ws2", "turagas-ws");
    assert StartsWith("turagas-ws3", "turagas-ws") && StartsWith("turagas-ws4", "turagas-ws");
    assert !StartsWith("c04u01", "turagas-ws") && !StartsWith("c04u07", "turagas-ws");
    assert !StartsWith("c04u12", "turagas-ws") && !StartsWith("c04u17", "turagas-ws");
  }

  /** Number of engines in `hosts` that run on host `h`. */
  function Count(hosts: seq<string>, h: string): nat
    decreases |hosts|
  {
    if |hosts| == 0 then 0
    else Count(hosts[..|hosts| - 1], h) + (if hosts[|hosts| - 1] == h then 1 else 0)
  }

  /** The GPU index engine `i` should get: the number of earlier engines on its host. */
  function DeviceIndex(hosts: seq<string>, i: nat): nat
    requires i < |hosts|
  {
    Count(hosts[..i], hosts[i])
  }

  /** `'/gpu:{}'.format(k)`: the TensorFlow name of GPU `k`. */
  function DeviceName(k: nat): (r: string)
    ensures |r| > 5 && StartsWith(r, "/gpu:") && AllDigits(r[5..])
  {
    "/gpu:" + NatToString(k)
  }

  /** Reads the GPU index back out of a device name. */
  function DeviceNumber(name: string): Option<int> {
    if StartsWith(name, "/gpu:") then ParseInt(name[5..]) else None
  }

  /** A device name gives back its index, so different indices give different names. */
  lemma DeviceNameRoundTrip(k: nat)
    ensures DeviceNumber(DeviceName(k)) == Some(k)
  {
    ParseIntNatToString(k);
    assert DeviceName(k)[5..] == NatToString(k);
  }

  lemma {:induction false} CountOfAbsent(hosts: seq<string>, h: string)
    requires h !in hosts
    ensures Count(hosts, h) == 0
    decreases |hosts|
  {
    if |hosts| > 0 {
      CountOfAbsent(hosts[..|hosts| - 1], h);
    }
  }

  /**
   * The assignment loop of `gpu_job_runner`: walks the engine hosts once,
   * keeping a count of engines per host, and gives each engine the GPU whose
   * index is the number of earlier engines on the same host.
   */
  method AssignDevices(engineHosts: seq<string>) returns (deviceAssignments: seq<string>, enginesPerHost: map<string, nat>)
    ensures |deviceAssignments| == |engineHosts|
    ensures forall i :: 0 <= i < |engineHosts| ==> deviceAssignments[i] == DeviceName(DeviceIndex(engineHosts, i))
    ensures forall h :: h in enginesPerHost <==> h in engineHosts
    ensures forall h :: h in enginesPerHost ==> enginesPerHost[h] == Count(engineHosts, h)
  {
    enginesPerHost := map[];
    deviceAssignments := [];
    for i := 0 to |engineHosts|
      invariant |deviceAssignments| == i
      invariant forall j :: 0 <= j < i ==> deviceAssignments[j] == DeviceName(DeviceIndex(engineHosts, j))
      invariant forall h :: h in enginesPerHost <==> h in engineHosts[..i]
      invariant forall h :: h in enginesPerHost ==> enginesPerHost[h] == Count(engineHosts[..i], h)
    {
      var host := engineHosts[i];
      assert engineHosts[..i + 1][..i] == engineHosts[..i];
      assert engineHosts[..i + 1] == engineHosts[..i] + [host];
      if host in enginesPerHost {
        deviceAssignments := deviceAssignments + [DeviceName(enginesPerHost[host])];
        enginesPerHost := enginesPerHost[host := enginesPerHost[host] + 1];
      } else {
        CountOfAbsent(engineHosts[..i], host);
        assert DeviceName(0) == "/gpu:0";
        deviceAssignments := deviceAssignments + ["/gpu:0"];
        enginesPerHost := enginesPerHost[host := 1];
      }
    }
    assert engineHosts[..|engineHosts|] == engineHosts;
  }

  lemma {:induction false} CountPrefixMonotone(hosts: seq<string>, i: nat, j: nat, h: string)
    requires i <= j <= |hosts|
    ensures Count(hosts[..i], h) <= Count(hosts[..j], h)
    decreases j - i
  {
    if i < j {
      CountPrefixMonotone(hosts, i, j - 1, h);
      assert hosts[..j][..j - 1] == hosts[..j - 1];
    }
  }

  /** Two engines on the same host never get the same GPU: a later engine gets a higher index. */
  lemma DeviceIndexIncreasing(hosts: seq<string>, i: nat, j: nat)
    requires i < j < |hosts| && hosts[i] == hosts[j]
    ensures DeviceIndex(hosts, i) < DeviceIndex(hosts, j)
  {
    assert hosts[..i + 1][..i] == hosts[..i];
    CountPrefixMonotone(hosts, i + 1, j, hosts[i]);
  }

  /** Two engines on the same host never get the same device name. */
  lemma DeviceNamesDistinctOnHost(hosts: seq<string>, i: nat, j: nat)
    requires i < j < |hosts| && hosts[i] == hosts[j]
    ensures DeviceName(DeviceIndex(hosts, i)) != DeviceName(DeviceIndex(hosts, j))
  {
    DeviceIndexIncreasing(hosts, i, j);
    DeviceNameRoundTrip(DeviceIndex(hosts, i));
    DeviceNameRoundTrip(DeviceIndex(hosts, j));
  }

  /** The indices given on a host with `n` engines are exactly 0 .. n-1. */
  lemma {:induction false} DeviceIndicesOnHost(hosts: seq<string>, h: string, k: nat)
    ensures k < Count(hosts, h) <==> exists i :: 0 <= i < |hosts| && hosts[i] == h && DeviceIndex(hosts, i) == k
    decreases |hosts|
  {
    if |hosts| > 0 {
      var n := |hosts|;
      var front := hosts[..n - 1];
      DeviceIndicesOnHost(front, h, k);
      forall i | 0 <= i < n - 1
        ensures DeviceIndex(hosts, i) == DeviceIndex(front, i) && hosts[i] == front[i]
      {
        assert front[..i] == hosts[..i];
      }
      assert front == hosts[..n - 1];
      if k < Count(hosts, h) {
        if k >= Count(front, h) {
          assert hosts[n - 1] == h && DeviceIndex(hosts, n - 1) == k;
        } else {
          var i :| 0 <= i < n - 1 && front[i] == h && DeviceIndex(front, i) == k;
          assert hosts[i] == h && DeviceIndex(hosts, i) == k;
        }
      }
    }
  }

  /** Engines A, A, B get '/gpu:0', '/gpu:1' and '/gpu:0'. */
  lemma ThreeEngineExample()
    ensures DeviceIndex(["A", "A", "B"], 0) == 0
    ensures DeviceIndex(["A", "A", "B"], 1) == 1
    ensures DeviceIndex(["A", "A", "B"], 2) == 0
    ensures DeviceName(0) == "/gpu:0" && DeviceName(1) == "/gpu:1"
  {
    var hosts := ["A", "A", "B"];
    assert hosts[..1] == ["A"];
    assert hosts[..2] == ["A", "A"];
    assert ["A", "A"][..1] == ["A"];
  }

  /** Outcome of the over-provisioning check. */
  datatype CapacityVerdict =
    | WithinCapacity
    | OverCapacity(host: string)   // the `assert` failed: logged, and execution goes on
    | UnknownHost(host: string)    // `WS_N_GPUS[host]` raised KeyError

  /** Host `h` runs no more engines than it has GPUs. */
  predicate Fits(h: string, enginesPerHost: map<string, nat>, capacity: map<string, nat>)
    requires h in enginesPerHost
  {
    h in capacity && enginesPerHost[h] <= capacity[h]
  }

  predicate AllFit(hosts: seq<string>, enginesPerHost: map<string, nat>, capacity: map<string, nat>)
    requires forall h :: h in hosts ==> h in enginesPerHost
  {
    forall j :: 0 <= j < |hosts| ==> Fits(hosts[j], enginesPerHost, capacity)
  }

  /**
   * The over-provisioning check of `gpu_job_runner`: visits the hosts in the
   * dictionary's iteration order `hostOrder` and stops at the first host whose
   * engine count exceeds its GPU count, or that the table does not know.
   */
  method CheckCapacity(hostOrder: seq<string>, enginesPerHost: map<string, nat>, capacity: map<string, nat>)
    returns (verdict: CapacityVerdict)
    requires forall h :: h in hostOrder ==> h in enginesPerHost
    ensures verdict.WithinCapacity? <==> AllFit(hostOrder, enginesPerHost, capacity)
    ensures verdict.OverCapacity? ==>
      verdict.host in hostOrder && verdict.host in capacity && enginesPerHost[verdict.host] > capacity[verdict.host]
    ensures verdict.UnknownHost? ==> verdict.host in hostOrder && verdict.host !in capacity
    ensures !verdict.WithinCapacity? ==>
      exists k :: 0 <= k < |hostOrder| && hostOrder[k] == verdict.host && AllFit(hostOrder[..k], enginesPerHost, capacity)
  {
    for i := 0 to |hostOrder|
      invariant AllFit(hostOrder[..i], enginesPerHost, capacity)
    {
      var host := hostOrder[i];
      if host !in capacity {
        return UnknownHost(host);
      }
      if enginesPerHost[host] > capacity[host] {
        return OverCapacity(host);
      }
      assert hostOrder[..i + 1] == hostOrder[..i] + [host];
    }
    assert hostOrder[..|hostOrder|] == hostOrder;
    return WithinCapacity;
  }

  /** What the assignment step leaves for job dispatch. */
  datatype Assignment = Assignment(deviceAssignments: seq<string>, criticalLogged: bool)

  /**
   * The device-assignment step of `gpu_job_runner` (when devices are not yet
   * assigned): assigns devices, then, unless engine overlap is allowed, checks
   * the engine counts against `WS_N_GPUS`, visiting the hosts in the
   * dictionary's iteration order `hostOrder`. The first host that is over
   * its GPU count or missing from the table decides the outcome: an
   * over-provisioned host is only logged, while an unknown host raises
   * KeyError, which nothing catches.
   */
  method AssignAndCheck(engineHosts: seq<string>, allowEngineOverlap: bool, hostOrder: seq<string>)
    returns (r: Result<Assignment, string>)
    requires forall h :: h in hostOrder <==> h in engineHosts
    ensures r.Ok? ==> |r.value.deviceAssignments| == |engineHosts|
    ensures r.Ok? ==> forall i :: 0 <= i < |engineHosts| ==> r.value.deviceAssignments[i] == DeviceName(DeviceIndex(engineHosts, i))
    ensures allowEngineOverlap ==> r.Ok? && !r.value.criticalLogged
    ensures !allowEngineOverlap && (forall h :: h in engineHosts ==> h in WsNGpus) ==>
      r.Ok? && (r.value.criticalLogged <==> exists h :: h in engineHosts && Count(engineHosts, h) > WsNGpus[h])
    ensures r.Ok? && r.value.criticalLogged ==>
      exists h :: h in engineHosts && h in WsNGpus && Count(engineHosts, h) > WsNGpus[h]
    ensures r.Ok? && !r.value.criticalLogged && !allowEngineOverlap ==>
      forall h :: h in engineHosts ==> h in WsNGpus && Count(engineHosts, h) <= WsNGpus[h]
    ensures r.Err? ==> !allowEngineOverlap && r.error in engineHosts && r.error !in WsNGpus
    ensures !allowEngineOverlap && (r.Err? || r.value.criticalLogged) ==>
      exists k :: 0 <= k < |hostOrder| &&
        (r.Err? ==> r.error == hostOrder[k] && hostOrder[k] !in WsNGpus) &&
        (r.Ok? ==> hostOrder[k] in WsNGpus && Count(engineHosts, hostOrder[k]) > WsNGpus[hostOrder[k]]) &&
        forall j :: 0 <= j < k ==> hostOrder[j] in WsNGpus && Count(engineHosts, hostOrder[j]) <= WsNGpus[hostOrder[j]]
  {
    var deviceAssignments, enginesPerHost := AssignDevices(engineHosts);
    if allowEngineOverlap {
      return Ok(Assignment(deviceAssignments, false));
    }
    var verdict := CheckCapacity(hostOrder, enginesPerHost, WsNGpus);
    if !verdict.WithinCapacity? {
      var k :| 0 <= k < |hostOrder| && hostOrder[k] == verdict.host && AllFit(hostOrder[..k], enginesPerHost, WsNGpus);
      assert forall j :: 0 <= j < k ==> hostOrder[j] == hostOrder[..k][j];
    }
    match verdict
    case WithinCapacity =>
      r := Ok(Assignment(deviceAssignments, false));
    case OverCapacity(h) =>
      r := Ok(Assignment(deviceAssignments, true));
    case UnknownHost(h) =>
      r := Err(h);
  }

  /**
   * When the check passes, no engine is given a GPU index beyond its host's
   * GPU count.
   */
  lemma WithinCapacityDevicesExist(engineHosts: seq<string>, capacity: map<string, nat>, i: nat)
    requires i < |engineHosts|
    requires forall h :: h in engineHosts ==> h in capacity && Count(engineHosts, h) <= capacity[h]
    ensures DeviceIndex(engineHosts, i) < capacity[engineHosts[i]]
  {
    DeviceIndicesOnHost(engineHosts, engineHosts[i], DeviceIndex(engineHosts, i));
  }
}
