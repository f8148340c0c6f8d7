/** The event records of a trace: one GPU kernel execution, one host runtime-API call and one NVTX
    annotation range. Rows are parsed into these records field for field. */
module Records {
  import opened Wrappers

  /** A row of the CUPTI_ACTIVITY_KIND_KERNEL table. The trailing optional fields are columns that
      only some profiler versions write; they are absent (`None`) otherwise. */
  datatype Kernel = Kernel(
    rowid: int,
    start: int,
    end: int,
    deviceId: int,
    contextId: int,
    greenContextId: int,
    streamId: int,
    correlationId: int,
    globalPid: int,
    demangledName: int,
    shortName: int,
    mangledName: int,
    launchType: int,
    cacheConfig: int,
    registersPerThread: int,
    gridX: int,
    gridY: int,
    gridZ: int,
    blockX: int,
    blockY: int,
    blockZ: int,
    staticSharedMemory: int,
    dynamicSharedMemory: int,
    localMemoryPerThread: int,
    localMemoryTotal: int,
    gridId: int,
    sharedMemoryExecuted: int,
    graphNodeId: int,
    sharedMemoryLimitConfig: int,
    qmdBulkReleaseDone: Option<int>,
    qmdPreexitDone: Option<int>,
    qmdLastCtaDone: Option<int>,
    graphId: Option<int>,
    clusterX: Option<int>,
    clusterY: Option<int>,
    clusterZ: Option<int>,
    clusterSchedulingPolicy: Option<int>,
    maxPotentialClusterSize: Option<int>,
    maxActiveClusters: Option<int>)
  {
    /** Time the kernel ran; never negative for a well-formed row. */
    function Duration(): (d: int)
      ensures start <= end ==> 0 <= d
      ensures start + d == end
    {
      end - start
    }

    /** `a - b`: the time from the start of kernel `b` to the end of this kernel `a`. It is this
        kernel's duration plus the gap between the two launches. (The comment above `__sub__` in
        `analysis.py` names the ends the other way round; the code computes `a.end - b.start`.) */
    function Minus(other: Kernel): (span: int)
      ensures span == Duration() + (start - other.start)
    {
      end - other.start
    }

    /** The launch grid, as an (X, Y, Z) triple. */
    function Grid(): (g: (int, int, int))
      ensures g.0 == gridX && g.1 == gridY && g.2 == gridZ
    {
      (gridX, gridY, gridZ)
    }

    /** The thread-block shape, as an (X, Y, Z) triple. */
    function Blocks(): (b: (int, int, int))
      ensures b.0 == blockX && b.1 == blockY && b.2 == blockZ
    {
      (blockX, blockY, blockZ)
    }
  }

  /** A kernel row as the profiler writes it: it ends no earlier than it starts and its launch
      geometry is positive in every dimension. */
  predicate WellFormedKernel(k: Kernel)
  {
    k.start <= k.end
    && k.gridX >= 1 && k.gridY >= 1 && k.gridZ >= 1
    && k.blockX >= 1 && k.blockY >= 1 && k.blockZ >= 1
  }

  /** A row of the CUPTI_ACTIVITY_KIND_RUNTIME table. Only `rowid`, `start`, `end` and
      `correlationId` are read; every other column is carried as it was fetched. */
  datatype ApiCall = ApiCall(
    rowid: int,
    start: int,
    end: int,
    correlationId: int,
    otherColumns: map<string, int>)

  /** A row of the NVTX_EVENTS table. The floating-point payloads are carried as reals and never
      inspected. */
  datatype NvtxEvent = NvtxEvent(
    rowid: int,
    start: int,
    end: int,
    eventType: int,
    rangeId: int,
    category: int,
    color: int,
    text: string,
    globalTid: int,
    endGlobalTid: int,
    textId: int,
    domainId: int,
    uint64Value: int,
    int64Value: int,
    doubleValue: real,
    uint32Value: int,
    int32Value: int,
    floatValue: real,
    jsonTextId: int,
    jsonText: string,
    binaryData: string)

  /** The `rowid` of each record kind, used as the key of a table's scan order. */
  function KernelRowId(k: Kernel): int { k.rowid }
  function ApiCallRowId(c: ApiCall): int { c.rowid }
  function NvtxRowId(ev: NvtxEvent): int { ev.rowid }

  /** The span from the start of `b` to the end of `a` covers both kernels when `b` finished before
      `a` started, and the span of a kernel from itself is its duration. */
  lemma SpanCoversBoth(a: Kernel, b: Kernel)
    requires WellFormedKernel(a) && WellFormedKernel(b)
    ensures a.Minus(a) == a.Duration()
    ensures b.end <= a.start ==> a.Minus(b) >= a.Duration() + b.Duration()
    ensures b.start <= a.start ==> a.Minus(b) >= a.Duration()
  {
  }
}
