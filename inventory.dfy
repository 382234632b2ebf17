/** The vSphere inventory as the controller sees it, and the three-level
    correlation of Kubernetes nodes to VMs to ESXi hosts.
    The join is specified by prefix recursion, the order in which the
    controller's nested loops append: node-major, then VM, then host. */
module Inventory {
  import opened GPUInfoTypes

  datatype Option<T> = None | Some(value: T)

  /** A vSphere managed-object reference. */
  datatype MoRef = MoRef(kind: string, value: string)

  /** A Kubernetes node; only its name takes part in the correlation. */
  datatype Node = Node(name: string)

  /** The summary of a virtual machine: its configured name, the host it
      runs on (a possibly nil reference), and its live usage figures. */
  datatype VmSummary = VmSummary(
    configName: string,
    runtimeHost: Option<MoRef>,
    guestMemoryUsage: Int32,
    overallCpuDemand: Int32)

  /** The summary of an ESXi host: its own reference and configured name. */
  datatype HostSummary = HostSummary(host: Option<MoRef>, configName: string)

  /** One (VM, host) pair found by the correlation. */
  datatype Match = Match(vm: VmSummary, host: HostSummary)

  /** Deep equality of the host's reference with the VM's runtime host:
      two nil references are equal, a nil and a non-nil one are not. */
  predicate RunsOn(vm: VmSummary, h: HostSummary) {
    h.host == vm.runtimeHost
  }

  /** The pairs the innermost loop appends for one VM, in host order. */
  function HostMatches(vm: VmSummary, hosts: seq<HostSummary>): (r: seq<Match>)
  {
    if |hosts| == 0 then []
    else
      var h := hosts[|hosts| - 1];
      HostMatches(vm, hosts[..|hosts| - 1]) + (if RunsOn(vm, h) then [Match(vm, h)] else [])
  }

  /** The pairs the middle loop appends for one node name, in VM order. */
  function VmMatches(name: string, vms: seq<VmSummary>, hosts: seq<HostSummary>): (r: seq<Match>)
  {
    if |vms| == 0 then []
    else
      var vm := vms[|vms| - 1];
      VmMatches(name, vms[..|vms| - 1], hosts) + (if vm.configName == name then HostMatches(vm, hosts) else [])
  }

  /** The pairs the whole correlation produces, in node order. */
  function Join(nodes: seq<Node>, vms: seq<VmSummary>, hosts: seq<HostSummary>): (r: seq<Match>)
  {
    if |nodes| == 0 then []
    else Join(nodes[..|nodes| - 1], vms, hosts) + VmMatches(nodes[|nodes| - 1].name, vms, hosts)
  }

  /** The relational reading of the join: some node carries the VM's
      configured name, and the VM runs on the host. */
  predicate Correlated(nodes: seq<Node>, vms: seq<VmSummary>, hosts: seq<HostSummary>, m: Match) {
    && (exists i :: 0 <= i < |nodes| && nodes[i].name == m.vm.configName)
    && m.vm in vms
    && m.host in hosts
    && RunsOn(m.vm, m.host)
  }

  lemma {:induction false} HostMatchesMembership(vm: VmSummary, hosts: seq<HostSummary>, m: Match)
    ensures m in HostMatches(vm, hosts) <==> m.vm == vm && m.host in hosts && RunsOn(vm, m.host)
  {
    if |hosts| > 0 {
      var init := hosts[..|hosts| - 1];
      HostMatchesMembership(vm, init, m);
      assert hosts == init + [hosts[|hosts| - 1]];
    }
  }

  lemma {:induction false} VmMatchesMembership(name: string, vms: seq<VmSummary>, hosts: seq<HostSummary>, m: Match)
    ensures m in VmMatches(name, vms, hosts) <==>
      m.vm in vms && m.vm.configName == name && m.host in hosts && RunsOn(m.vm, m.host)
  {
    if |vms| > 0 {
      var init, vm := vms[..|vms| - 1], vms[|vms| - 1];
      VmMatchesMembership(name, init, hosts, m);
      HostMatchesMembership(vm, hosts, m);
      assert vms == init + [vm];
    }
  }

  /** A pair is produced by the correlation exactly when it is correlated. */
  lemma {:induction false} JoinMembership(nodes: seq<Node>, vms: seq<VmSummary>, hosts: seq<HostSummary>, m: Match)
    ensures m in Join(nodes, vms, hosts) <==> Correlated(nodes, vms, hosts, m)
  {
    if |nodes| > 0 {
      var init, n := nodes[..|nodes| - 1], nodes[|nodes| - 1];
      JoinMembership(init, vms, hosts, m);
      VmMatchesMembership(n.name, vms, hosts, m);
      if m in Join(nodes, vms, hosts) && m !in Join(init, vms, hosts) {
        assert nodes[|nodes| - 1].name == m.vm.configName;
      }
      if Correlated(nodes, vms, hosts, m) {
        var i :| 0 <= i < |nodes| && nodes[i].name == m.vm.configName;
        if i < |nodes| - 1 {
          assert init[i] == nodes[i];
        }
      }
    }
  }

  /** Node-major order: the pairs of a longer node list are those of its
      first part followed by those of its second part, with no merging. */
  lemma {:induction false} JoinAppend(first: seq<Node>, second: seq<Node>, vms: seq<VmSummary>, hosts: seq<HostSummary>)
    ensures Join(first + second, vms, hosts) == Join(first, vms, hosts) + Join(second, vms, hosts)
  {
    if |second| > 0 {
      var init := second[..|second| - 1];
      JoinAppend(first, init, vms, hosts);
      assert (first + second)[..|first + second| - 1] == first + init;
    } else {
      assert first + second == first;
    }
  }

  /** Within one node, VM order: the pairs for a longer VM list are those of
      its first part followed by those of its second part. */
  lemma {:induction false} VmMatchesAppend(name: string, first: seq<VmSummary>, second: seq<VmSummary>, hosts: seq<HostSummary>)
    ensures VmMatches(name, first + second, hosts) == VmMatches(name, first, hosts) + VmMatches(name, second, hosts)
  {
    if |second| > 0 {
      var init := second[..|second| - 1];
      VmMatchesAppend(name, first, init, hosts);
      assert (first + second)[..|first + second| - 1] == first + init;
    } else {
      assert first + second == first;
    }
  }

  /** A node whose name matches no VM that runs on a listed host adds no
      pair: it is silently omitted, not an error. */
  lemma UnmatchedNodeContributesNothing(nodes: seq<Node>, n: Node, vms: seq<VmSummary>, hosts: seq<HostSummary>)
    requires forall vm, h :: vm in vms && h in hosts && vm.configName == n.name ==> !RunsOn(vm, h)
    ensures Join([n], vms, hosts) == []
    ensures Join(nodes + [n], vms, hosts) == Join(nodes, vms, hosts)
  {
    var extra := VmMatches(n.name, vms, hosts);
    if extra != [] {
      VmMatchesMembership(n.name, vms, hosts, extra[0]);
      assert false;
    }
    assert (nodes + [n])[..|nodes|] == nodes;
    assert [n][..0] == [];
  }
}
