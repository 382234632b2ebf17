/** The GPUInfo reconciler: the single-shot guard, the placement pipeline
    (correlate, filter, rank), the in-place status assignment and the status
    write. The Kubernetes client and the vSphere views are collaborators
    whose answers are inputs; the calls issued are returned as a trace. */
module Controller {
  import opened GPUInfoTypes
  import opened Inventory
  import opened Candidates
  import opened Filter
  import opened Ranking

  /** An error reported by a collaborator; NotFound is the API server's
      "object not found". */
  datatype ApiError = NotFound | Failure(reason: string)

  /** The error a call returns: nil (Pass) or an error. */
  datatype Outcome = Pass | Fail(error: ApiError)

  /** The answer of a call that returns data. */
  datatype Fetched<T> = Got(value: T) | Err(error: ApiError)

  /** The answers the collaborators give during one reconciliation. */
  datatype Collaborators = Collaborators(
    get: Outcome,                        // Client.Get of the GPUInfo object
    nodeList: Fetched<seq<Node>>,        // Client.List of the nodes
    vmView: Outcome,                     // container view of the VMs
    vms: Fetched<seq<VmSummary>>,        // VM summaries from that view
    hostView: Outcome,                   // container view of the hosts
    hosts: Fetched<seq<HostSummary>>,    // host summaries from that view
    update: Outcome)                     // Status().Update

  /** The external calls, in the order Reconcile may issue them. */
  datatype Step = GetObject | ListNodes | CreateVmView | RetrieveVms | CreateHostView | RetrieveHosts | UpdateStatus

  const AllSteps := [GetObject, ListNodes, CreateVmView, RetrieveVms, CreateHostView, RetrieveHosts, UpdateStatus]

  /** client.IgnoreNotFound: a NotFound error becomes nil, others pass through. */
  function IgnoreNotFound(e: ApiError): (r: Outcome)
    ensures r.Pass? <==> e.NotFound?
    ensures r.Fail? ==> r.error == e
  {
    if e.NotFound? then Pass else Fail(e)
  }

  /** The decision the pipeline computes for a request from the inventories. */
  function Placement(spec: GPUInfoSpec, nodes: seq<Node>, vms: seq<VmSummary>, hosts: seq<HostSummary>,
                     src: AttributeSource): (s: GPUInfoStatus)
  {
    Decision(FilterSuitable(CandidatesOf(nodes, vms, hosts, src), spec))
  }

  /** Every collaborator answers successfully, the node list is not empty and
      the request is undecided: exactly when Reconcile writes a decision. */
  predicate Writes(status: GPUInfoStatus, io: Collaborators)
  {
    && io.get.Pass?
    && !Decided(status)
    && io.nodeList.Got? && |io.nodeList.value| > 0
    && io.vmView.Pass? && io.vms.Got?
    && io.hostView.Pass? && io.hosts.Got?
    && io.update.Pass?
  }

  /** The request is read, undecided, and the node list is fetched and not
      empty: the inventory calls follow. */
  predicate Lists(status: GPUInfoStatus, io: Collaborators)
  {
    io.get.Pass? && !Decided(status) && io.nodeList.Got? && |io.nodeList.value| > 0
  }

  /** Kubernetes object names are never empty. */
  predicate NamedNodes(nodes: seq<Node>)
  {
    forall i :: 0 <= i < |nodes| ==> nodes[i].name != ""
  }

  /** The pipeline's decision always names a node when the nodes are named,
      so a written decision makes the request terminal. */
  lemma PlacementIsDecided(spec: GPUInfoSpec, nodes: seq<Node>, vms: seq<VmSummary>, hosts: seq<HostSummary>,
                           src: AttributeSource)
    requires NamedNodes(nodes)
    ensures Decided(Placement(spec, nodes, vms, hosts, src))
  {
    var cs := CandidatesOf(nodes, vms, hosts, src);
    var best := FilterSuitable(cs, spec);
    DecisionCases(best);
    if |best| == 1 || (|best| >= 2 && exists k :: 0 <= k < |best| && best[k].nodeCpuUsage < CpuSentinel) {
      var c := if |best| == 1 then best[0] else best[EarliestMinIndex(best)];
      FilterMembership(cs, spec, c);
      var k :| 0 <= k < |cs| && cs[k] == c;
      CandidateProvenance(nodes, vms, hosts, src, k);
    }
  }

  /** The status assignment on the fetched object. The counter selects the
      branch; a negative counter takes Go's error branch for a negative
      count, which assigns nothing. */
  method AssignStatus(gpu: GPUInfo, bestCandidates: seq<Candidate>, suitableCandidates: int) returns (ok: bool)
    modifies gpu
    ensures gpu.Spec == old(gpu.Spec)
    ensures ok <==> suitableCandidates >= 0
    ensures suitableCandidates == 0 ==> gpu.Status == NoneAvailable
    ensures suitableCandidates == 1 ==>
      gpu.Status == if |bestCandidates| == 0 then old(gpu.Status) else StatusOf(bestCandidates[|bestCandidates| - 1])
    ensures suitableCandidates > 1 ==> gpu.Status == StatusOf(Winner(bestCandidates))
    ensures suitableCandidates < 0 ==> gpu.Status == old(gpu.Status)
    ensures suitableCandidates == |bestCandidates| ==> gpu.Status == Decision(bestCandidates)
  {
    if suitableCandidates == 0 {
      gpu.Status := gpu.Status.(SuitableNodeName := "None available");
      gpu.Status := gpu.Status.(SuitableHostName := "None available");
      gpu.Status := gpu.Status.(NodeMemoryUsage := 0);
      gpu.Status := gpu.Status.(NodeCPUUsage := 0);
      gpu.Status := gpu.Status.(AvailableAcceleratorTime := 0);
    } else if suitableCandidates == 1 {
      for i := 0 to |bestCandidates|
        invariant gpu.Spec == old(gpu.Spec)
        invariant gpu.Status == if i == 0 then old(gpu.Status) else StatusOf(bestCandidates[i - 1])
      {
        var singleentry := bestCandidates[i];
        gpu.Status := gpu.Status.(SuitableHostName := singleentry.hostName);
        gpu.Status := gpu.Status.(SuitableNodeName := singleentry.nodeName);
        gpu.Status := gpu.Status.(NodeCPUUsage := singleentry.nodeCpuUsage);
        gpu.Status := gpu.Status.(NodeMemoryUsage := singleentry.nodeMemoryUsage);
        gpu.Status := gpu.Status.(AvailableAcceleratorTime := singleentry.availAccTime);
      }
    } else if suitableCandidates > 1 {
      var winnerCandidate := LeastCpuCandidate(bestCandidates);
      gpu.Status := gpu.Status.(SuitableNodeName := winnerCandidate.nodeName);
      gpu.Status := gpu.Status.(SuitableHostName := winnerCandidate.hostName);
      gpu.Status := gpu.Status.(NodeMemoryUsage := winnerCandidate.nodeMemoryUsage);
      gpu.Status := gpu.Status.(NodeCPUUsage := winnerCandidate.nodeCpuUsage);
      gpu.Status := gpu.Status.(AvailableAcceleratorTime := winnerCandidate.availAccTime);
    } else {
      return false;
    }
    return true;
  }

  /** One reconciliation of the stored GPUInfo object `obj`. The object is
      read into a fresh copy, the copy's status is assigned in place, and the
      stored status changes only when the status write succeeds. */
  method Reconcile(obj: GPUInfo, io: Collaborators, src: AttributeSource)
    returns (err: Outcome, steps: seq<Step>)
    modifies obj
    ensures obj.Spec == old(obj.Spec)
    // the calls issued are always an initial run of the full sequence
    ensures steps <= AllSteps && |steps| >= 1
    // a vanished request is not an error; other read failures are
    ensures io.get.Fail? ==> err == IgnoreNotFound(io.get.error) && steps == [GetObject]
    // a decided request is terminal: nothing beyond the read, no write
    ensures io.get.Pass? && Decided(old(obj.Status)) ==> err == Pass && steps == [GetObject]
    // all or nothing: the stored status is either untouched or the full decision
    ensures obj.Status == if Writes(old(obj.Status), io)
      then Placement(old(obj.Spec), io.nodeList.value, io.vms.value, io.hosts.value, src)
      else old(obj.Status)
    ensures Writes(old(obj.Status), io) ==> err == Pass && UpdateStatus in steps
    // a failing write leaves the request undecided and reports the error
    ensures err.Fail? ==> obj.Status == old(obj.Status)
    ensures UpdateStatus in steps && io.update.Fail? ==> err == io.update
    // an empty node list ends the reconciliation with a nil error and no write
    ensures io.get.Pass? && !Decided(old(obj.Status)) && io.nodeList.Got? && |io.nodeList.value| == 0 ==>
      err == Pass && steps == [GetObject, ListNodes]
    // the error of any inventory call is propagated
    ensures io.get.Pass? && !Decided(old(obj.Status)) && io.nodeList.Err? ==>
      err == IgnoreNotFound(io.nodeList.error)
      && steps == AllSteps[..2]
    // past a non-empty node list, each call is issued once the earlier ones
    // succeed, and its failure ends the reconciliation with that error
    ensures Lists(old(obj.Status), io) && io.vmView.Fail? ==>
      err == io.vmView && steps == AllSteps[..3]
    ensures Lists(old(obj.Status), io) && io.vmView.Pass? && io.vms.Err? ==>
      err == Fail(io.vms.error) && steps == AllSteps[..4]
    ensures Lists(old(obj.Status), io) && io.vmView.Pass? && io.vms.Got? && io.hostView.Fail? ==>
      err == io.hostView && steps == AllSteps[..5]
    ensures Lists(old(obj.Status), io) && io.vmView.Pass? && io.vms.Got? && io.hostView.Pass? && io.hosts.Err? ==>
      err == Fail(io.hosts.error) && steps == AllSteps[..6]
    ensures Lists(old(obj.Status), io) && io.vmView.Pass? && io.vms.Got? && io.hostView.Pass? && io.hosts.Got? ==>
      steps == AllSteps && err == io.update
    // once written with named nodes, the request is decided
    ensures Writes(old(obj.Status), io) && NamedNodes(io.nodeList.value) ==> Decided(obj.Status)
  {
    steps := [GetObject];
    if io.get.Fail? {
      return IgnoreNotFound(io.get.error), steps;
    }
    var gpu := new GPUInfo(obj.Spec, obj.Status);

    if gpu.Status.SuitableNodeName == "" {
      steps := steps + [ListNodes];
      if io.nodeList.Err? {
        return IgnoreNotFound(io.nodeList.error), steps;
      }
      var nodes := io.nodeList.value;
      if |nodes| == 0 {
        // the error returned here is the nil one from the successful list
        return Pass, steps;
      }

      steps := steps + [CreateVmView];
      if io.vmView.Fail? {
        return io.vmView, steps;
      }
      steps := steps + [RetrieveVms];
      if io.vms.Err? {
        return Fail(io.vms.error), steps;
      }
      var vms := io.vms.value;
      steps := steps + [CreateHostView];
      if io.hostView.Fail? {
        return io.hostView, steps;
      }
      steps := steps + [RetrieveHosts];
      if io.hosts.Err? {
        return Fail(io.hosts.error), steps;
      }
      var hosts := io.hosts.value;

      var candidate := Correlate(nodes, vms, hosts, src);
      var bestCandidates, suitableCandidates := FilterCandidates(candidate, gpu.Spec);
      var statusSet := AssignStatus(gpu, bestCandidates, suitableCandidates);
      if !statusSet {
        // Go's error branch for a negative count returns the nil error of the last retrieve
        return Pass, steps;
      }

      steps := steps + [UpdateStatus];
      if io.update.Fail? {
        return io.update, steps;
      }
      obj.Status := gpu.Status;
      if NamedNodes(nodes) {
        PlacementIsDecided(gpu.Spec, nodes, vms, hosts, src);
      }
    }
    return Pass, steps;
  }

  /** Reconciling twice: once the first run has written a decision for named
      nodes, the second run issues only the read and changes nothing. */
  method ReconcileTwice(obj: GPUInfo, first: Collaborators, second: Collaborators, src: AttributeSource)
    returns (err: Outcome, steps: seq<Step>)
    modifies obj
    requires Writes(obj.Status, first) && NamedNodes(first.nodeList.value)
    requires second.get.Pass?
    ensures err == Pass && steps == [GetObject]
    ensures obj.Status == Placement(old(obj.Spec), first.nodeList.value, first.vms.value, first.hosts.value, src)
  {
    var _, _ := Reconcile(obj, first, src);
    ghost var decided := obj.Status;
    err, steps := Reconcile(obj, second, src);
    assert obj.Status == decided;
  }
}
