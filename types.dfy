/** The GPUInfo custom resource: the placement request (Spec) and the
    placement decision written back by the controller (Status).
    Go's fixed-width integers are kept as bounded subtypes of int, so every
    widening from int32 to int64 is checked rather than assumed. */
module GPUInfoTypes {

  type Int32 = x: int | -0x8000_0000 <= x <= 0x7fff_ffff
  type Int64 = x: int | -0x8000_0000_0000_0000 <= x <= 0x7fff_ffff_ffff_ffff

  /** GPUInfoSpec: minimum accelerator hours wanted and whether a GPU is needed. */
  datatype GPUInfoSpec = GPUInfoSpec(DesAccTime: Int64, GPURequired: bool)

  /** GPUInfoStatus: the decision. An empty SuitableNodeName means "undecided". */
  datatype GPUInfoStatus = GPUInfoStatus(
    SuitableNodeName: string,
    SuitableHostName: string,
    NodeMemoryUsage: Int64,
    NodeCPUUsage: Int64,
    AvailableAcceleratorTime: Int64)

  /** A request is terminal once a node name has been recorded. */
  predicate Decided(s: GPUInfoStatus) {
    s.SuitableNodeName != ""
  }

  /** The GPUInfo object; the controller updates its Status fields in place. */
  class GPUInfo {
    var Spec: GPUInfoSpec
    var Status: GPUInfoStatus

    constructor (spec: GPUInfoSpec, status: GPUInfoStatus)
      ensures Spec == spec && Status == status
    {
      Spec := spec;
      Status := status;
    }
  }
}
