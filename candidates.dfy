/** Candidate attribution and the correlation loop that builds the
    candidate list. The two simulated attributes come from an injected
    attribute source: the k-th candidate appended takes the k-th draw. */
module Candidates {
  import opened GPUInfoTypes
  import opened Inventory

  /** Bounds of the simulated next maintenance slot, in hours. */
  const MmMin: int := 300
  const MmMax: int := 400

  /** A value of rand.Intn(MmMax - MmMin + 1): in [0, MmMax - MmMin]. */
  type SlotOffset = x: int | 0 <= x < MmMax - MmMin + 1

  /** One draw of the simulation: the Intn value and the GPU coin toss
      (the outcome of rand.Float32() < 0.5). */
  datatype Draw = Draw(offset: SlotOffset, coin: bool)

  /** The injected attribute source: the draw used for the k-th candidate. */
  type AttributeSource = nat -> Draw

  /** CandidateList: one correlated (node, host) pair with its attributes. */
  datatype Candidate = Candidate(
    hostName: string,
    availAccTime: Int64,
    hasGPU: bool,
    nodeMemoryUsage: Int32,
    nodeCpuUsage: Int32,
    nodeName: string)

  /** The record appended for one correlated pair, given its draw. */
  function MakeCandidate(m: Match, d: Draw): (c: Candidate)
  {
    Candidate(
      m.host.configName,
      d.offset + MmMin,
      d.coin,
      m.vm.guestMemoryUsage,
      m.vm.overallCpuDemand,
      m.vm.configName)
  }

  /** The candidate list for a sequence of pairs, the k-th pair using draw k. */
  function Attribute(ms: seq<Match>, src: AttributeSource): (cs: seq<Candidate>)
    ensures |cs| == |ms|
  {
    if |ms| == 0 then []
    else Attribute(ms[..|ms| - 1], src) + [MakeCandidate(ms[|ms| - 1], src(|ms| - 1))]
  }

  /** The candidate list the controller builds from the three inventories. */
  function CandidatesOf(nodes: seq<Node>, vms: seq<VmSummary>, hosts: seq<HostSummary>, src: AttributeSource): (cs: seq<Candidate>)
  {
    Attribute(Join(nodes, vms, hosts), src)
  }

  lemma {:induction false} AttributeAt(ms: seq<Match>, src: AttributeSource, k: nat)
    requires k < |ms|
    ensures Attribute(ms, src)[k] == MakeCandidate(ms[k], src(k))
  {
    if k < |ms| - 1 {
      AttributeAt(ms[..|ms| - 1], src, k);
    }
  }

  lemma AttributeSnoc(ms: seq<Match>, m: Match, src: AttributeSource)
    ensures Attribute(ms + [m], src) == Attribute(ms, src) + [MakeCandidate(m, src(|ms|))]
  {
  }

  /** Every candidate comes from a correlated (node, VM, host) triple: its node
      name is the VM's configured name and so some node's name, its host name
      is the host's configured name, and its usage figures are the VM's. */
  lemma CandidateProvenance(nodes: seq<Node>, vms: seq<VmSummary>, hosts: seq<HostSummary>, src: AttributeSource, k: nat)
    requires k < |CandidatesOf(nodes, vms, hosts, src)|
    ensures var c := CandidatesOf(nodes, vms, hosts, src)[k];
      exists i, vm, h :: 0 <= i < |nodes| && vm in vms && h in hosts
        && nodes[i].name == vm.configName && RunsOn(vm, h)
        && c.nodeName == vm.configName && c.hostName == h.configName
        && c.nodeCpuUsage == vm.overallCpuDemand
        && c.nodeMemoryUsage == vm.guestMemoryUsage
  {
    var ms := Join(nodes, vms, hosts);
    AttributeAt(ms, src, k);
    JoinMembership(nodes, vms, hosts, ms[k]);
    var i :| 0 <= i < |nodes| && nodes[i].name == ms[k].vm.configName;
  }

  /** With the simulated source every accelerator time lies in [300, 400]. */
  lemma AccTimeInSlotRange(nodes: seq<Node>, vms: seq<VmSummary>, hosts: seq<HostSummary>, src: AttributeSource, c: Candidate)
    requires c in CandidatesOf(nodes, vms, hosts, src)
    ensures MmMin <= c.availAccTime <= MmMax
  {
    var cs := CandidatesOf(nodes, vms, hosts, src);
    var k :| 0 <= k < |cs| && cs[k] == c;
    AttributeAt(Join(nodes, vms, hosts), src, k);
  }

  /** The innermost loop: append a candidate for each host the VM runs on. */
  method AppendHostCandidates(candidate: seq<Candidate>, vm: VmSummary, hosts: seq<HostSummary>,
                              src: AttributeSource, ghost joined: seq<Match>)
    returns (candidate': seq<Candidate>)
    requires candidate == Attribute(joined, src)
    ensures candidate' == Attribute(joined + HostMatches(vm, hosts), src)
  {
    candidate' := candidate;
    ghost var acc := joined;
    assert hosts[..0] == [] && joined + [] == joined;
    for k := 0 to |hosts|
      invariant acc == joined + HostMatches(vm, hosts[..k])
      invariant candidate' == Attribute(acc, src)
    {
      var hs := hosts[k];
      assert hosts[..k + 1][..k] == hosts[..k];
      if hs.host == vm.runtimeHost {
        AttributeSnoc(acc, Match(vm, hs), src);
        candidate' := candidate' + [Candidate(
          hs.configName,
          src(|candidate'|).offset + MmMin,
          src(|candidate'|).coin,
          vm.guestMemoryUsage,
          vm.overallCpuDemand,
          vm.configName)];
        acc := acc + [Match(vm, hs)];
      }
    }
    assert hosts[..|hosts|] == hosts;
  }

  lemma VmMatchesStep(name: string, vms: seq<VmSummary>, hosts: seq<HostSummary>, j: nat)
    requires j < |vms|
    ensures VmMatches(name, vms[..j + 1], hosts)
      == VmMatches(name, vms[..j], hosts) + (if vms[j].configName == name then HostMatches(vms[j], hosts) else [])
  {
    assert vms[..j + 1][..j] == vms[..j];
  }

  /** The middle loop: for each VM configured with the node's name, append
      the candidates of the hosts it runs on. */
  method AppendVmCandidates(candidate: seq<Candidate>, name: string, vms: seq<VmSummary>, hosts: seq<HostSummary>,
                            src: AttributeSource, ghost joined: seq<Match>)
    returns (candidate': seq<Candidate>)
    requires candidate == Attribute(joined, src)
    ensures candidate' == Attribute(joined + VmMatches(name, vms, hosts), src)
  {
    candidate' := candidate;
    assert joined + VmMatches(name, vms[..0], hosts) == joined;
    for j := 0 to |vms|
      invariant candidate' == Attribute(joined + VmMatches(name, vms[..j], hosts), src)
    {
      var vm := vms[j];
      ghost var acc := joined + VmMatches(name, vms[..j], hosts);
      VmMatchesStep(name, vms, hosts, j);
      if vm.configName == name {
        candidate' := AppendHostCandidates(candidate', vm, hosts, src, acc);
        assert acc + HostMatches(vm, hosts) == joined + VmMatches(name, vms[..j + 1], hosts);
      } else {
        assert acc == joined + VmMatches(name, vms[..j + 1], hosts);
      }
    }
    assert vms[..|vms|] == vms;
  }

  /** The correlation loop: for each node, each VM whose configured name is
      the node's name, and each host that VM runs on, append a candidate. */
  method Correlate(nodes: seq<Node>, vms: seq<VmSummary>, hosts: seq<HostSummary>, src: AttributeSource)
    returns (candidate: seq<Candidate>)
    ensures candidate == CandidatesOf(nodes, vms, hosts, src)
  {
    candidate := [];
    for i := 0 to |nodes|
      invariant candidate == Attribute(Join(nodes[..i], vms, hosts), src)
    {
      assert nodes[..i + 1][..i] == nodes[..i];
      candidate := AppendVmCandidates(candidate, nodes[i].name, vms, hosts, src, Join(nodes[..i], vms, hosts));
    }
    assert nodes[..|nodes|] == nodes;
  }
}
