# nsyspy trace query layer, modelled in Dafny

nsyspy reads the SQLite export of an Nsight Systems GPU trace. This project models its query and
correlation layer, `src/nsyspy/analysis.py`. It covers three parts:

- **Event records.** `CuptiActivityKindKernel` becomes `Records.Kernel`, `NvtxEvent` becomes
  `Records.NvtxEvent`, and a row of the runtime-API table becomes `Records.ApiCall`.
- **The string-table resolver** over the StringIds table.
- **The `NsysSqlite` queries.** These are the time-window queries over the kernel, runtime-API and
  NVTX tables, the name-based kernel query, the correlation-id lookup of API calls, the
  kernels-from-API-calls join, the NVTX projection (range → enclosed API calls → kernels with those
  correlation ids) and the sequential `getKernelsAfter` read.

The opened database is a value, `Analysis.Db`:

- the StringIds rows;
- the kernel table;
- the runtime-API table;
- an optional NVTX table, which is `None` when the trace has none.

Each table is a sequence in the storage's scan order. A `select` with a condition followed by
`fetchall` is `Selection.Select`: a filter that keeps table order. Its result is a subsequence of
the table, so every row keeps its relative position and appears no more often than in the table. The one stepwise query,
`getKernelsAfter`, is a method. It opens a `KernelCursor` on the pending rows of its select and
calls `FetchOne` `count` times.

Scan order reads as follows. `Analysis.Valid` says that every table is scanned in ascending
`rowid` and that string ids are unique. Under `Valid`, every query result is stated as "exactly these
rows, ascending by `rowid`". `Selection.AscendingDetermined` proves that this pins the sequence down
completely: two ascending sequences with the same members are equal.

Bounds are inclusive everywhere (`start >= lo`, `end <= hi`), in the window queries and in the
enclosure test of the projection alike, as the code writes them.

Behaviour of the code worth spelling out:

- A name argument that is an empty list is not `None`, so `getKernels` does not raise for it. The
  model returns an empty selection and claims nothing about what the SQL text would do there (see
  Left out).
- An NVTX table that exists but holds no rows gives an empty result. Only a missing table raises
  the KeyError with the "no NVTX events profiled" hint.
- A failed single-row read is not a dedicated "not found" error. `fetchone` returns `None`, and
  subscripting or unpacking it raises a TypeError. The model calls this `Errors.Error.NoRow`.
- A short `getKernelsAfter` read raises; it does not return a shorter list.

## Model

| member | source | states |
|---|---|---|
| `Records.Kernel.Duration` | src/nsyspy/analysis.py:65-67 | the duration is the time from start to end, and never negative when end is not before start |
| `Records.Kernel.Minus` | src/nsyspy/analysis.py:61-63 | `a - b` is a's duration plus the gap between the two starts (from the start of b to the end of a; the comment at line 61 names the ends the other way round, and the model follows the code at line 63) |
| `Records.Kernel.Grid` | src/nsyspy/analysis.py:69-71 | the grid is the (gridX, gridY, gridZ) triple |
| `Records.Kernel.Blocks` | src/nsyspy/analysis.py:73-75 | the block shape is the (blockX, blockY, blockZ) triple |
| `Records.SpanCoversBoth` | src/nsyspy/analysis.py:61-67 | `a - a` is a's duration; when b starts no later than a the span is at least a's duration, and when b ends before a starts it covers both durations |
| `Selection.Select` | src/nsyspy/analysis.py:147-152 | a select followed by fetchall returns exactly the rows satisfying the condition, as a subsequence of the table (table order kept), and no more rows than the table has |
| `Selection.SelectConcat` | src/nsyspy/analysis.py:147-152 | selecting from two tables placed one after the other is the concatenation of the two selections |
| `Selection.SelectAscending` | src/nsyspy/analysis.py:147-152 | selection keeps table order: from an ascending table it returns an ascending sequence |
| `StringTable.FindStringIdsContaining` | src/nsyspy/analysis.py:121-131 | the keys are exactly the ids of rows whose text contains at least one fragment (OR); each key maps to the text of the last matching row with that id, since later rows overwrite earlier ones in the dictionary |
| `StringTable.FoundIdHasItsText` | src/nsyspy/analysis.py:121-131 | with unique ids every matching row's id is a key and maps to that row's own text |
| `StringTable.FindStringMatchingId` | src/nsyspy/analysis.py:133-135 | succeeds exactly when some row has the id, returning the first such row's text; fails with NoRow otherwise; with unique ids the result is that row's text |
| `StringTable.ResolversAgree` | src/nsyspy/analysis.py:121-135 | with unique ids, looking up any id the fragment search found returns the text the search mapped it to |
| `Analysis.ShortNameString` | src/nsyspy/analysis.py:52-53 | the string-table lookup of the kernel's shortName id: succeeds iff that id exists, and then gives its text |
| `Analysis.MangledNameString` | src/nsyspy/analysis.py:55-56 | the same lookup for the mangledName id |
| `Analysis.DemangledNameString` | src/nsyspy/analysis.py:58-59 | the same lookup for the demangledName id |
| `Analysis.TextIdString` | src/nsyspy/analysis.py:104-105 | the same lookup for an NVTX range's textId |
| `Analysis.GetKernelsBetween` | src/nsyspy/analysis.py:137-153 | exactly the kernel rows with start >= lo and, when an upper bound is given, end <= hi; ascending when the table is |
| `Analysis.GetCudaApiCallsBetween` | src/nsyspy/analysis.py:219-230 | exactly the runtime-API rows inside the same inclusive window; ascending when the table is |
| `Analysis.GetNvtxBetween` | src/nsyspy/analysis.py:240-256 | fails exactly when the NVTX table is missing, with the KeyError text naming NVTX_EVENTS and the no-NVTX hint; otherwise exactly the NVTX rows inside the window, ascending when the table is |
| `Analysis.Fragments` | src/nsyspy/analysis.py:163-174 | a bare string becomes the one-element list holding it; a list is used as given |
| `Analysis.KernelsNamed` | src/nsyspy/analysis.py:178-186 | exactly the kernel rows whose chosen name column is the id of a string containing a fragment, in table order |
| `Analysis.GetKernels` | src/nsyspy/analysis.py:156-186 | raises the ValueError exactly when all three name arguments are absent; otherwise the first given argument (short, then demangled, then mangled) picks the column, and the result is exactly the kernels whose name in that column contains one of its fragments, in table order |
| `Analysis.ApiCallsWithCorrelationId` | src/nsyspy/analysis.py:210-215 | exactly the runtime-API rows with that correlation id, in table order |
| `Analysis.GetCudaApiCallFor` | src/nsyspy/analysis.py:199-217 | raises the TypeError exactly for a target that is neither an id nor a kernel; an id target selects the calls with that id, a kernel target those with the kernel's correlationId; zero or several rows are possible |
| `Analysis.GetKernelsFromApiCalls` | src/nsyspy/analysis.py:232-238 | exactly the kernel rows whose correlationId is that of one of the given calls, in table order |
| `Analysis.GetProjection` | src/nsyspy/analysis.py:107-110 | exactly the kernel rows correlated with a runtime-API call that the range encloses (start >= range start, end <= range end), in table order |
| `Analysis.KernelsFollowing` | src/nsyspy/analysis.py:189-192 | the rows pending after getKernelsAfter's select are exactly those with a larger rowid than the kernel, in table order |
| `Analysis.NextKernels` | src/nsyspy/analysis.py:188-197 | succeeds exactly when at least count rows follow (and always for count <= 0), with exactly max(count, 0) rows, all after the kernel; in an ascending table they are ascending and are the least rowids after the kernel; a short read fails with NoRow |
| `Analysis.KernelCursor.constructor` | src/nsyspy/analysis.py:189-192 | issuing the select: its rows become pending and none is fetched |
| `Analysis.KernelCursor.FetchOne` | src/nsyspy/analysis.py:196 | returns the next pending row and advances, or returns nothing once every row was fetched |
| `Analysis.GetKernelsAfter` | src/nsyspy/analysis.py:188-197 | the loop of count fetchone calls returns exactly NextKernels: the next count rows, or the failure of the fetch that found none |
| `Analysis.NoMatchingNameFindsNothing` | src/nsyspy/analysis.py:163-186 | a fragment list that no string matches selects no kernel in any of the three name columns, and the query returns an empty list, not an error, whichever name argument carries it |
| `Analysis.ProjectedKernelHasEnclosedCall` | src/nsyspy/analysis.py:199-238 | every projected kernel's own API-call lookup succeeds and contains a call the range encloses |
| `Analysis.StraddlingCallContributesNothing` | src/nsyspy/analysis.py:219-238 | adding a call that straddles either end of the range to the runtime-API table, at any position, leaves the projection unchanged |
| `Analysis.StraddlingCallIsNotSelected` | src/nsyspy/analysis.py:219-230 | the window query of the range returns the same calls whether or not a straddling call is in the table |
| `Analysis.EnclosureBoundary` | src/nsyspy/analysis.py:219-238 | a call spanning exactly the range is projected; one ending one tick after the range is not |
| `Analysis.ProjectionMonotone` | src/nsyspy/analysis.py:107-110 | a range inside another projects onto a subset of the other's kernels |
| `Analysis.ProjectionDetermined` | src/nsyspy/analysis.py:107-110 | in a valid dataset, any rowid-ascending sequence with exactly the two-hop members is the projection |
| `Analysis.CorrelationRoundTrip` | src/nsyspy/analysis.py:199-238 | a kernel with a triggering call is found again by projecting its own API calls back onto the kernel table |
| `Scenarios.GemmScenario` | src/nsyspy/analysis.py:156-186 | with kernels named gemm_fp16, softmax and gemm_fp32, searching short names for "gemm" returns the two gemm kernels in rowid order |
| `Scenarios.KernelsAfterScenario` | src/nsyspy/analysis.py:188-197 | with kernel rows 6, 7 and 8, the two rows after row 5 are 6 and 7, and asking for four fails |

## Left out

- SQLite and the `sew` library are not modelled. SQL text assembly, the rendering of
  `Condition(...).IN(...)`, table lookup by name and the shared cursor protocol are all left out.
  Tables are sequences and conditions are predicates.
- `LIKE '%fragment%'` is modelled as plain, case-sensitive substring containment. SQLite's ASCII
  case folding, the `%` and `_` wildcards inside fragments and unescaped quotes are not modelled.
- An empty fragment list and an empty IN list: the model selects nothing in both cases. The source
  promises nothing here: what happens depends on how `sew` renders an empty condition. So no claim
  is made about the source for these inputs.
- The shared cursor of the database session: `sew` keeps one pending result set per database, and
  any other query issued between two `fetchone` calls would replace it. The model gives
  `getKernelsAfter` a cursor of its own, so no such interference is modelled.
- Parsing rows with `CuptiActivityKindKernel(**row)` and `NvtxEvent(**row)` is not modelled, and
  neither is the TypeError a column mismatch would raise. Rows are already typed records.
- Runtime-API rows are returned as fetched dictionaries. The model keeps `rowid`, `start`, `end` and
  `correlationId` as fields and every other column in a map.
- Timestamps are integers; the `float` defaults of the window bounds are the integer 0. The
  floating-point NVTX payloads (`doubleValue`, `floatValue`) are carried as reals and never read.
- The profiler-version optional kernel fields (`qmd*`, `graphId`, `cluster*`) are `Option<int>`;
  nothing reads them.
- The text of the missing-table KeyError uses the table name where the source formats the
  original KeyError raised by `sew`, whose text is not part of this model.
- `isinstance(target, int)` also accepts Python booleans. The model's `Target` has no boolean case;
  such a caller passes the id 0 or 1.
- The `path` property, the constructor that opens the SQLite file, and `src/nsyspy/runners.py` in
  full are not modelled. That file covers running `nsys`, file-existence checks and report naming:
  process and filesystem I/O.
- Records.Kernel.Grid: the triple is the whole of the property, so its contract is the definition.
  The same holds for Records.Kernel.Blocks.
