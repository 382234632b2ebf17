# GPUInfo placement controller, modelled in Dafny

The controller reconciles `GPUInfo` requests. A request says how many hours of
accelerator time it needs (`DesAccTime`) and whether it needs a GPU
(`GPURequired`). While its `Status.SuitableNodeName` is empty, `Reconcile` does
five things. It lists the Kubernetes nodes. It joins each node to the VM with the
same configured name, and that VM to the ESXi host it runs on. It turns each
joined pair into a `CandidateList` record. It keeps the records that meet the
request exactly. It records one of four outcomes in the status: "None
available", the single survivor, the survivor with the least CPU demand, or,
when several survive and none has a CPU demand below 999999, the "Unknown"
placeholder with CPU 999999. Once
a node name is recorded, the request is terminal.

The model has one module per concern:

- `types.dfy` (`GPUInfoTypes`): the `GPUInfoSpec` and `GPUInfoStatus` records, and
  a `GPUInfo` class whose `Status` field is assigned in place. Go's `int32` and
  `int64` are bounded subtypes of `int`, so every widening is checked.
- `inventory.dfy` (`Inventory`): node, VM and host summaries, and the
  node × VM × host join. The join is specified by prefix recursion in
  node-major, then VM, then host order. Host identity is an optional
  managed-object reference, and `reflect.DeepEqual` on the two pointers is
  equality of the options.
- `candidates.dfy` (`Candidates`): the candidate record and the attribution.
  The simulated attributes come from an injected `AttributeSource`: the k-th
  candidate appended takes the k-th draw, which holds a `rand.Intn(101)` value
  and a coin for `rand.Float32() < 0.5`. The nested correlation loop is three
  methods, one per loop level. Each method is proved against the join.
- `filter.dfy` (`Filter`): the exact-match filter loop with its counter, proved
  against `FilterSuitable`.
- `ranking.dfy` (`Ranking`): the strict-less-than fold from the placeholder
  (`"Unknown"`, CPU 999999). It is proved equal to "earliest minimum" whenever
  some CPU is below the sentinel. It also holds the three-way `Decision`.
- `controller.dfy` (`Controller`): the in-place status assignment and
  `Reconcile`. The collaborators' answers (`Client.Get`, `Client.List`, both
  container views and their retrieves, `Status().Update`) are inputs. The
  external calls issued are returned as a trace of `Step`s. `Reconcile` reads
  the stored object into a fresh `GPUInfo` and assigns that copy's status field
  by field. The stored status changes only when the status write succeeds.

When the node list is empty, the code returns the current `err`, which is nil
at that point, so this case ends with no error and no write. The unreachable
branch for a negative candidate count also returns that nil error without
writing.

## Model

| member | source | states |
|---|---|---|
| `GPUInfoTypes.GPUInfo.constructor` | api/v1/gpuinfo_types.go:46-52 | a GPUInfo object holds exactly the given spec and status |
| `Inventory.HostMatchesMembership` | controllers/gpuinfo_controller.go:221-223 | the innermost scan yields a (VM, host) pair exactly when the host is listed and its reference deep-equals the VM's runtime host |
| `Inventory.VmMatchesMembership` | controllers/gpuinfo_controller.go:213-223 | for one node name, a pair is produced exactly when its VM is listed, carries that configured name, and runs on a listed host |
| `Inventory.JoinMembership` | controllers/gpuinfo_controller.go:211-250 | a pair comes out of the three-level join exactly when some node's name equals the VM's configured name, the VM and host are listed, and the VM runs on the host |
| `Inventory.JoinAppend` | controllers/gpuinfo_controller.go:211-250 | node-major order: the pairs for nodes `a + b` are the pairs for `a` followed by those for `b`, so repeated matches are all kept and never merged |
| `Inventory.VmMatchesAppend` | controllers/gpuinfo_controller.go:213-249 | within one node, VM order: the pairs for VMs `a + b` are those for `a` followed by those for `b` |
| `Inventory.UnmatchedNodeContributesNothing` | controllers/gpuinfo_controller.go:211-250 | a node with no same-named VM running on a listed host yields no pair on its own, and appending it to a node list leaves the join unchanged; this is not an error |
| `Candidates.Attribute` | controllers/gpuinfo_controller.go:223-244 | exactly one candidate is built per correlated pair |
| `Candidates.AttributeAt` | controllers/gpuinfo_controller.go:223-244 | the k-th candidate is built from the k-th pair and the k-th draw |
| `Candidates.CandidateProvenance` | controllers/gpuinfo_controller.go:223-244 | every candidate's node name is its VM's configured name, which equals some node's name; its host name is the matched host's configured name; its CPU and memory are the VM's figures copied verbatim |
| `Candidates.AccTimeInSlotRange` | controllers/gpuinfo_controller.go:140-142 | with the simulated source, every candidate's accelerator time (line 228) lies in the inclusive range [300, 400] |
| `Candidates.AppendHostCandidates` | controllers/gpuinfo_controller.go:221-246 | the host loop appends exactly the candidates of the hosts the VM runs on, in host order |
| `Candidates.AppendVmCandidates` | controllers/gpuinfo_controller.go:213-249 | the VM loop appends exactly the candidates of the VMs named after the node, in VM order |
| `Candidates.Correlate` | controllers/gpuinfo_controller.go:211-250 | the whole nested loop builds exactly the attributed join of the three inventories |
| `Filter.FilterMembership` | controllers/gpuinfo_controller.go:263-270 | a candidate survives exactly when its accelerator time is at least the desired time and its GPU flag equals the requirement, so a non-GPU request rejects GPU hosts |
| `Filter.FilterAppend` | controllers/gpuinfo_controller.go:263-270 | the filter preserves input order: it distributes over concatenation |
| `Filter.FilterIdempotent` | controllers/gpuinfo_controller.go:263-270 | filtering the survivors again removes nothing |
| `Filter.FilterCandidates` | controllers/gpuinfo_controller.go:263-270 | the loop yields exactly the order-preserving filter, and the counter equals its length, so it is never negative |
| `Filter.FilterExample` | controllers/gpuinfo_controller.go:265 | with 350 hours and a GPU required, only the candidate with enough time and a GPU survives |
| `Ranking.EarliestMinIndex` | controllers/gpuinfo_controller.go:327-340 | reference for the fold: the first position whose CPU is at most every CPU and strictly below every earlier one |
| `Ranking.WinnerKeepsPlaceholder` | controllers/gpuinfo_controller.go:318-340 | if no CPU is below 999999, the fold leaves the "Unknown" placeholder with CPU 999999 |
| `Ranking.WinnerIsEarliestMin` | controllers/gpuinfo_controller.go:327-340 | if some CPU is below 999999, the fold's status fields are those of the earliest candidate with the minimum CPU, so ties keep the first |
| `Ranking.LeastCpuCandidate` | controllers/gpuinfo_controller.go:318-340 | the field-by-field fold computes the winner: the earliest minimum-CPU candidate, or the placeholder when every CPU is at or above the sentinel |
| `Ranking.DecisionCases` | controllers/gpuinfo_controller.go:281-349 | zero survivors give "None available" twice and three zeros; one survivor gives its own fields widened to int64; several give the earliest minimum-CPU survivor, or the "Unknown"/999999 placeholder when none is below the sentinel |
| `Ranking.DecisionHasLeastCpu` | controllers/gpuinfo_controller.go:309-349 | with several survivors and some CPU below the sentinel, the decision is one survivor's fields and its CPU is at most every survivor's CPU |
| `Ranking.TiedMinimumKeepsFirst` | controllers/gpuinfo_controller.go:329 | with CPUs 40, 40, 55 the decision is the first of the two tied candidates |
| `Controller.IgnoreNotFound` | controllers/gpuinfo_controller.go:88 | a not-found error becomes success and any other error is returned unchanged |
| `Controller.PlacementIsDecided` | controllers/gpuinfo_controller.go:281-349 | when every node is named, the decision has a non-empty node name, so the request is terminal once it is written |
| `Controller.AssignStatus` | controllers/gpuinfo_controller.go:281-354 | the counter picks the branch. 0 sets the "None available" status. 1 copies the surviving record. More than 1 copies the fold's winner. A negative count writes nothing and reports failure. When the counter equals the number of survivors, the new status is the decision |
| `Controller.Reconcile` | controllers/gpuinfo_controller.go:79-367 | a failed read returns the not-found-filtered error. A decided request issues no further call and no write. The stored status is either untouched or the full decision, written only when every call succeeds, the node list is non-empty and the request is undecided. Every error path leaves the status untouched. A failing list returns the not-found-filtered error after the list, and an empty node list returns no error after the list. Past a non-empty list, each call is issued only once the earlier ones succeed: a failing view, retrieve or write ends the run with that call's error and a trace ending at that call, and when every inventory call succeeds all seven calls are issued and the write's result is returned |
| `Controller.ReconcileTwice` | controllers/gpuinfo_controller.go:96-366 | after a successful decision with named nodes, a second reconciliation issues only the read, returns success and leaves the decision unchanged |

## Left out

- The Kubernetes client (`Client.Get`, `Client.List`, `Status().Update`) is not modelled. Each call's result is an input that succeeds or fails. Optimistic-concurrency conflicts are one kind of failure.
- `SetupWithManager` and the watch registration are left out: they only register the controller with the manager.
- The govmomi view manager is not modelled. `CreateContainerView` and `Retrieve` are inputs that succeed or fail, and the summaries are given sequences.
- The deferred `Destroy` of the two views is not modelled, so the model does not show that views are released on every exit path.
- `rand.Seed(time.Now().UnixNano())`, the uniform distribution of `rand.Intn`, and the 0.5 probability of `rand.Float32() < 0.5` are left out (clock, randomness, floating point). The draws come from the injected `AttributeSource`: an Intn value in [0, 100] and a boolean.
- Candidates.AccTimeInSlotRange: the bound rests on the draw type. It assumes the generator honours `rand.Intn`'s contract of returning a value in [0, n).
- Logging and `fmt` messages have no effect on the outcome and are left out.
- The `context` and any cancellation are left out.
- `Candidate.availAccTime` is Go's `int`. It is taken as 64 bits wide, the width on the platforms the controller targets.
- `api/v1/zz_generated.deepcopy.go` is not part of this model: it is generated copy code.
- The object metadata, the list types and the scheme registration in `api/v1/gpuinfo_types.go` are left out. Only the spec and status records take part in the logic.
