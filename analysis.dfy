/** The query and correlation layer over one trace dataset: time-window and name queries over the
    kernel, runtime-API and NVTX tables, correlation of kernels with the API calls that launched
    them, and the projection of an NVTX range onto the kernels it encloses. */
module Analysis {
  import opened Wrappers
  import opened Errors
  import opened Selection
  import opened Records
  import opened StringTable

  /** An opened dataset. Each table is a sequence in the storage's scan order; `nvtx` is `None` when
      the trace has no NVTX_EVENTS table. */
  datatype Db = Db(
    strings: seq<StringRow>,
    kernels: seq<Kernel>,
    runtime: seq<ApiCall>,
    nvtx: Option<seq<NvtxEvent>>)

  /** A dataset as the profiler exports it: string ids are unique and every table is scanned in
      ascending `rowid` order. */
  ghost predicate Valid(db: Db)
  {
    UniqueIds(db.strings)
    && Ascending(db.kernels, KernelRowId)
    && Ascending(db.runtime, ApiCallRowId)
    && (db.nvtx.Some? ==> Ascending(db.nvtx.value, NvtxRowId))
  }

  // ---------------------------------------------------------------------------------------------
  // Name lookups of the records

  /** The text of a kernel's short name. */
  function ShortNameString(k: Kernel, db: Db): (r: Result<string, Error>)
    ensures r.Success? <==> HasId(db.strings, k.shortName)
    ensures r.Failure? ==> r.error == NoRow
    ensures UniqueIds(db.strings) ==> forall i :: 0 <= i < |db.strings| && db.strings[i].id == k.shortName ==>
      r == Success(db.strings[i].value)
  {
    FindStringMatchingId(db.strings, k.shortName)
  }

  /** The text of a kernel's mangled name. */
  function MangledNameString(k: Kernel, db: Db): (r: Result<string, Error>)
    ensures r.Success? <==> HasId(db.strings, k.mangledName)
    ensures r.Failure? ==> r.error == NoRow
    ensures UniqueIds(db.strings) ==> forall i :: 0 <= i < |db.strings| && db.strings[i].id == k.mangledName ==>
      r == Success(db.strings[i].value)
  {
    FindStringMatchingId(db.strings, k.mangledName)
  }

  /** The text of a kernel's demangled name. */
  function DemangledNameString(k: Kernel, db: Db): (r: Result<string, Error>)
    ensures r.Success? <==> HasId(db.strings, k.demangledName)
    ensures r.Failure? ==> r.error == NoRow
    ensures UniqueIds(db.strings) ==> forall i :: 0 <= i < |db.strings| && db.strings[i].id == k.demangledName ==>
      r == Success(db.strings[i].value)
  {
    FindStringMatchingId(db.strings, k.demangledName)
  }

  /** The text behind an NVTX range's interned text id. */
  function TextIdString(ev: NvtxEvent, db: Db): (r: Result<string, Error>)
    ensures r.Success? <==> HasId(db.strings, ev.textId)
    ensures r.Failure? ==> r.error == NoRow
    ensures UniqueIds(db.strings) ==> forall i :: 0 <= i < |db.strings| && db.strings[i].id == ev.textId ==>
      r == Success(db.strings[i].value)
  {
    FindStringMatchingId(db.strings, ev.textId)
  }

  // ---------------------------------------------------------------------------------------------
  // Time windows

  /** The window condition of the `*Between` queries: `start >= lo`, and `end <= hi` when an upper
      bound is given. Both bounds are inclusive. */
  predicate InWindow(start: int, end: int, lo: int, hi: Option<int>)
  {
    lo <= start && (hi.Some? ==> end <= hi.value)
  }

  /** `getKernelsBetween`: the kernel rows inside the window, in table order. */
  function GetKernelsBetween(db: Db, lo: int := 0, hi: Option<int> := None): (r: seq<Kernel>)
    ensures forall k :: k in r <==>
      k in db.kernels && lo <= k.start && (hi.Some? ==> k.end <= hi.value)
    ensures Ascending(db.kernels, KernelRowId) ==> Ascending(r, KernelRowId)
  {
    SelectAscending(db.kernels, (k: Kernel) => InWindow(k.start, k.end, lo, hi), KernelRowId);
    Select(db.kernels, (k: Kernel) => InWindow(k.start, k.end, lo, hi))
  }

  /** `getCudaApiCallsBetween`: the runtime-API rows inside the window, in table order. */
  function GetCudaApiCallsBetween(db: Db, lo: int := 0, hi: Option<int> := None): (r: seq<ApiCall>)
    ensures forall c :: c in r <==>
      c in db.runtime && lo <= c.start && (hi.Some? ==> c.end <= hi.value)
    ensures Ascending(db.runtime, ApiCallRowId) ==> Ascending(r, ApiCallRowId)
  {
    SelectAscending(db.runtime, ApiCallInWindow(lo, hi), ApiCallRowId);
    Select(db.runtime, ApiCallInWindow(lo, hi))
  }

  /** The window condition as a test on runtime-API rows. */
  function ApiCallInWindow(lo: int, hi: Option<int>): ApiCall -> bool
  {
    (c: ApiCall) => InWindow(c.start, c.end, lo, hi)
  }

  /** `getNvtxBetween`: the NVTX rows inside the window, in table order; a trace without an
      NVTX_EVENTS table raises a KeyError that says no NVTX ranges were profiled. */
  function GetNvtxBetween(db: Db, lo: int := 0, hi: Option<int> := None): (r: Result<seq<NvtxEvent>, Error>)
    ensures r.Failure? <==> db.nvtx.None?
    ensures r.Failure? ==> r.error == MissingTable(NvtxTable, MissingTableMessage(NvtxTable))
    ensures r.Success? ==> forall ev :: ev in r.value <==>
      ev in db.nvtx.value && lo <= ev.start && (hi.Some? ==> ev.end <= hi.value)
    ensures r.Success? && Ascending(db.nvtx.value, NvtxRowId) ==> Ascending(r.value, NvtxRowId)
  {
    match db.nvtx
    case None => Failure(MissingTable(NvtxTable, MissingTableMessage(NvtxTable)))
    case Some(rows) =>
      SelectAscending(rows, (ev: NvtxEvent) => InWindow(ev.start, ev.end, lo, hi), NvtxRowId);
      Success(Select(rows, (ev: NvtxEvent) => InWindow(ev.start, ev.end, lo, hi)))
  }

  // ---------------------------------------------------------------------------------------------
  // Kernels by name

  /** A name argument: a bare string stands for the one-element list holding it. */
  datatype Names = OneName(text: string) | NameList(items: seq<string>)

  function Fragments(names: Names): (fragments: seq<string>)
    ensures names.OneName? ==> fragments == [names.text]
    ensures names.NameList? ==> fragments == names.items
  {
    match names
    case OneName(text) => [text]
    case NameList(items) => items
  }

  /** The three interned-name columns of the kernel table. */
  datatype NameColumn = ShortNameColumn | DemangledNameColumn | MangledNameColumn

  function NameId(k: Kernel, column: NameColumn): int
  {
    match column
    case ShortNameColumn => k.shortName
    case DemangledNameColumn => k.demangledName
    case MangledNameColumn => k.mangledName
  }

  /** `ks` holds exactly the kernel rows whose `column` names a string that contains one of
      `fragments`, in table order. */
  ghost predicate SelectedByName(ks: seq<Kernel>, db: Db, column: NameColumn, fragments: seq<string>)
  {
    (forall k :: k in ks <==> k in db.kernels && IdMatches(db.strings, NameId(k, column), fragments))
    && (Ascending(db.kernels, KernelRowId) ==> Ascending(ks, KernelRowId))
  }

  /** The kernel rows whose `column` is one of the string ids found for `fragments`. */
  function KernelsNamed(db: Db, column: NameColumn, fragments: seq<string>): (r: seq<Kernel>)
    ensures SelectedByName(r, db, column, fragments)
  {
    var ids := FindStringIdsContaining(db.strings, fragments);
    SelectAscending(db.kernels, (k: Kernel) => NameId(k, column) in ids, KernelRowId);
    Select(db.kernels, (k: Kernel) => NameId(k, column) in ids)
  }

  /** `getKernels`: the first name argument given, in the order short, demangled, mangled, selects
      the column and the fragments; with none given it raises a ValueError. */
  function GetKernels(
    db: Db,
    viaShortNames: Option<Names> := None,
    viaDemangledNames: Option<Names> := None,
    viaMangledNames: Option<Names> := None): (r: Result<seq<Kernel>, Error>)
    ensures r.Failure? <==> viaShortNames.None? && viaDemangledNames.None? && viaMangledNames.None?
    ensures r.Failure? ==> r.error == NoNameFilter(NoNameFilterMessage)
    ensures viaShortNames.Some? ==>
      r.Success? && SelectedByName(r.value, db, ShortNameColumn, Fragments(viaShortNames.value))
    ensures viaShortNames.None? && viaDemangledNames.Some? ==>
      r.Success? && SelectedByName(r.value, db, DemangledNameColumn, Fragments(viaDemangledNames.value))
    ensures viaShortNames.None? && viaDemangledNames.None? && viaMangledNames.Some? ==>
      r.Success? && SelectedByName(r.value, db, MangledNameColumn, Fragments(viaMangledNames.value))
  {
    if viaShortNames.Some? then
      Success(KernelsNamed(db, ShortNameColumn, Fragments(viaShortNames.value)))
    else if viaDemangledNames.Some? then
      Success(KernelsNamed(db, DemangledNameColumn, Fragments(viaDemangledNames.value)))
    else if viaMangledNames.Some? then
      Success(KernelsNamed(db, MangledNameColumn, Fragments(viaMangledNames.value)))
    else
      Failure(NoNameFilter(NoNameFilterMessage))
  }

  // ---------------------------------------------------------------------------------------------
  // Correlation of kernels and API calls

  /** The argument of `getCudaApiCallFor`: a correlation id, a kernel, or a value of any other type. */
  datatype Target = CorrelationIdTarget(id: int) | KernelTarget(kernel: Kernel) | OtherTarget

  /** The runtime-API rows with the given correlation id, in table order. */
  function ApiCallsWithCorrelationId(db: Db, correlationId: int): (r: seq<ApiCall>)
    ensures forall c :: c in r <==> c in db.runtime && c.correlationId == correlationId
    ensures Ascending(db.runtime, ApiCallRowId) ==> Ascending(r, ApiCallRowId)
  {
    SelectAscending(db.runtime, (c: ApiCall) => c.correlationId == correlationId, ApiCallRowId);
    Select(db.runtime, (c: ApiCall) => c.correlationId == correlationId)
  }

  /** `getCudaApiCallFor`: every runtime-API row sharing the target's correlation id (zero, one or
      several); a target that is neither an id nor a kernel raises a TypeError. */
  function GetCudaApiCallFor(db: Db, target: Target): (r: Result<seq<ApiCall>, Error>)
    ensures r.Failure? <==> target.OtherTarget?
    ensures r.Failure? ==> r.error == UnsupportedTarget(UnsupportedTargetMessage)
    ensures target.CorrelationIdTarget? ==>
      r.Success? && forall c :: c in r.value <==> c in db.runtime && c.correlationId == target.id
    ensures target.KernelTarget? ==>
      r.Success? && forall c :: c in r.value <==> c in db.runtime && c.correlationId == target.kernel.correlationId
    ensures r.Success? && Ascending(db.runtime, ApiCallRowId) ==> Ascending(r.value, ApiCallRowId)
  {
    match target
    case CorrelationIdTarget(id) => Success(ApiCallsWithCorrelationId(db, id))
    case KernelTarget(k) => Success(ApiCallsWithCorrelationId(db, k.correlationId))
    case OtherTarget => Failure(UnsupportedTarget(UnsupportedTargetMessage))
  }

  /** `getKernelsFromApiCalls`: the kernel rows whose correlation id is that of one of `calls`, in
      table order. */
  function GetKernelsFromApiCalls(db: Db, calls: seq<ApiCall>): (r: seq<Kernel>)
    ensures forall k :: k in r <==>
      k in db.kernels && exists c :: c in calls && c.correlationId == k.correlationId
    ensures Ascending(db.kernels, KernelRowId) ==> Ascending(r, KernelRowId)
  {
    var ids := set c | c in calls :: c.correlationId;
    SelectAscending(db.kernels, CorrelatedWith(ids), KernelRowId);
    Select(db.kernels, CorrelatedWith(ids))
  }

  /** The test of the kernels-from-calls join: the kernel's correlation id is one of `ids`. */
  function CorrelatedWith(ids: set<int>): Kernel -> bool
  {
    (k: Kernel) => k.correlationId in ids
  }

  /** The interval of `c` lies within the range `ev`, both ends included. */
  predicate Encloses(ev: NvtxEvent, c: ApiCall)
  {
    ev.start <= c.start && c.end <= ev.end
  }

  /** `NvtxEvent.getProjection`: the kernels launched by the API calls the range encloses. */
  function GetProjection(ev: NvtxEvent, db: Db): (r: seq<Kernel>)
    ensures forall k :: k in r <==>
      k in db.kernels && exists c :: c in db.runtime && Encloses(ev, c) && c.correlationId == k.correlationId
    ensures Ascending(db.kernels, KernelRowId) ==> Ascending(r, KernelRowId)
  {
    var calls := GetCudaApiCallsBetween(db, ev.start, Some(ev.end));
    GetKernelsFromApiCalls(db, calls)
  }

  // ---------------------------------------------------------------------------------------------
  // Sequential reads

  /** The rows the select of `getKernelsAfter` leaves pending: the kernel rows with a larger
      `rowid` than `kernel`'s, in table order. */
  function KernelsFollowing(db: Db, kernel: Kernel): (r: seq<Kernel>)
    ensures forall k :: k in r <==> k in db.kernels && kernel.rowid < k.rowid
    ensures Ascending(db.kernels, KernelRowId) ==> Ascending(r, KernelRowId)
  {
    SelectAscending(db.kernels, (k: Kernel) => kernel.rowid < k.rowid, KernelRowId);
    Select(db.kernels, (k: Kernel) => kernel.rowid < k.rowid)
  }

  /** What `getKernelsAfter(kernel, count)` returns: the first `count` rows after `kernel` when that
      many remain, and a failed read otherwise. A count of zero or less asks for nothing. */
  function NextKernels(db: Db, kernel: Kernel, count: int): (r: Result<seq<Kernel>, Error>)
    ensures r.Success? <==> count <= |KernelsFollowing(db, kernel)|
    ensures r.Failure? ==> r.error == NoRow
    ensures r.Success? ==> |r.value| == (if count < 0 then 0 else count)
    ensures r.Success? ==> forall k :: k in r.value ==> k in db.kernels && kernel.rowid < k.rowid
    ensures r.Success? && Ascending(db.kernels, KernelRowId) ==>
      Ascending(r.value, KernelRowId)
      && forall k, k' :: k in db.kernels && kernel.rowid < k.rowid && k !in r.value && k' in r.value ==>
        k'.rowid < k.rowid
  {
    var following := KernelsFollowing(db, kernel);
    if count <= 0 then Success([])
    else if count <= |following| then
      assert forall k :: k in following[..count] ==> k in following;
      AscendingPrefixIsLeast(following, KernelRowId, count);
      Success(following[..count])
    else Failure(NoRow)
  }

  /** The storage cursor that `fetchone` advances: the rows a select left pending and how many of
      them have been fetched. */
  class KernelCursor {
    const pending: seq<Kernel>
    var position: nat

    ghost predicate Valid()
      reads this
    {
      position <= |pending|
    }

    /** Issuing a select: its rows become pending and nothing is fetched yet. */
    constructor (rows: seq<Kernel>)
      ensures Valid() && pending == rows && position == 0
    {
      pending := rows;
      position := 0;
    }

    /** `fetchone`: the next pending row, or nothing once all have been fetched. */
    method FetchOne() returns (row: Option<Kernel>)
      requires Valid()
      modifies this
      ensures Valid()
      ensures old(position) < |pending| ==> row == Some(pending[old(position)]) && position == old(position) + 1
      ensures old(position) == |pending| ==> row == None && position == old(position)
    {
      if position < |pending| {
        row := Some(pending[position]);
        position := position + 1;
      } else {
        row := None;
      }
    }
  }

  /** `getKernelsAfter`: selects the rows after `kernel` and fetches them one at a time, `count`
      times. A fetch that finds no row makes the whole call fail. */
  method GetKernelsAfter(db: Db, kernel: Kernel, count: int := 1) returns (r: Result<seq<Kernel>, Error>)
    ensures r == NextKernels(db, kernel, count)
  {
    var cursor := new KernelCursor(KernelsFollowing(db, kernel));
    var fetched: seq<Kernel> := [];
    var i := 0;
    while i < count
      invariant cursor.Valid() && cursor.pending == KernelsFollowing(db, kernel)
      invariant i == 0 || i <= count
      invariant cursor.position == i == |fetched|
      invariant fetched == cursor.pending[..i]
    {
      var row := cursor.FetchOne();
      if row.None? {
        return Failure(NoRow);
      }
      fetched := fetched + [row.value];
      i := i + 1;
    }
    return Success(fetched);
  }

  // ---------------------------------------------------------------------------------------------
  // Properties of the correlation queries

  /** A fragment list that no string matches finds no kernel in any name column, and the
      name-based query returns an empty list for it, not an error, whichever argument carries it. */
  lemma NoMatchingNameFindsNothing(db: Db, names: Names)
    requires forall i :: 0 <= i < |db.strings| ==> !MatchesAny(db.strings[i].value, Fragments(names))
    ensures forall column :: KernelsNamed(db, column, Fragments(names)) == []
    ensures GetKernels(db, Some(names)) == Success([])
    ensures GetKernels(db, None, Some(names)) == Success([])
    ensures GetKernels(db, None, None, Some(names)) == Success([])
  {
    forall column ensures KernelsNamed(db, column, Fragments(names)) == [] {
      NoMembersMeansEmpty(KernelsNamed(db, column, Fragments(names)));
    }
  }

  /** Every kernel of a projection has a triggering API call, and the range encloses one of them. */
  lemma ProjectedKernelHasEnclosedCall(ev: NvtxEvent, db: Db, k: Kernel)
    requires k in GetProjection(ev, db)
    ensures GetCudaApiCallFor(db, KernelTarget(k)).Success?
    ensures exists c :: c in GetCudaApiCallFor(db, KernelTarget(k)).value && Encloses(ev, c)
  {
  }

  /** A call that straddles either end of the range contributes nothing: adding it to the
      runtime-API table, at any position, leaves the projection unchanged. */
  lemma StraddlingCallContributesNothing(ev: NvtxEvent, db: Db, before: seq<ApiCall>, c: ApiCall, after: seq<ApiCall>)
    requires db.runtime == before + after
    requires c.start < ev.start || ev.end < c.end
    ensures GetProjection(ev, db.(runtime := before + [c] + after)) == GetProjection(ev, db)
  {
    var extended := db.(runtime := before + [c] + after);
    StraddlingCallIsNotSelected(ev, before, c, after);
    assert GetCudaApiCallsBetween(extended, ev.start, Some(ev.end))
      == GetCudaApiCallsBetween(db, ev.start, Some(ev.end));
  }

  /** The window query of a range does not return a call that straddles it, wherever that call
      sits in the table. */
  lemma StraddlingCallIsNotSelected(ev: NvtxEvent, before: seq<ApiCall>, c: ApiCall, after: seq<ApiCall>)
    requires c.start < ev.start || ev.end < c.end
    ensures Select(before + [c] + after, ApiCallInWindow(ev.start, Some(ev.end)))
      == Select(before + after, ApiCallInWindow(ev.start, Some(ev.end)))
  {
    var inWindow := ApiCallInWindow(ev.start, Some(ev.end));
    assert !inWindow(c) && [c][1..] == [];
    assert Select([c], inWindow) == [];
    calc {
      Select(before + [c] + after, inWindow);
      { SelectConcat(before + [c], after, inWindow); }
      Select(before + [c], inWindow) + Select(after, inWindow);
      { SelectConcat(before, [c], inWindow); }
      Select(before, inWindow) + Select(after, inWindow);
      { SelectConcat(before, after, inWindow); }
      Select(before + after, inWindow);
    }
  }

  /** The enclosure bounds are inclusive: a call spanning exactly the range is projected, and one
      that ends one tick after the range is not (when no other call shares its id). */
  lemma EnclosureBoundary(ev: NvtxEvent, db: Db, c: ApiCall, k: Kernel)
    requires c in db.runtime && k in db.kernels && k.correlationId == c.correlationId
    ensures c.start == ev.start && c.end == ev.end ==> k in GetProjection(ev, db)
    ensures c.start == ev.start && c.end == ev.end + 1
      && (forall c' :: c' in db.runtime && c'.correlationId == c.correlationId ==> c' == c)
      ==> k !in GetProjection(ev, db)
  {
  }

  /** A range inside another projects onto a subset of the other's kernels. */
  lemma ProjectionMonotone(inner: NvtxEvent, outer: NvtxEvent, db: Db)
    requires outer.start <= inner.start && inner.end <= outer.end
    ensures forall k :: k in GetProjection(inner, db) ==> k in GetProjection(outer, db)
  {
  }

  /** The projection is determined by its two hops: any rowid-ascending sequence holding exactly the
      kernels correlated with an enclosed call is the projection, in the same order. */
  lemma ProjectionDetermined(ev: NvtxEvent, db: Db, ks: seq<Kernel>)
    requires Valid(db)
    requires Ascending(ks, KernelRowId)
    requires forall k :: k in ks <==>
      k in db.kernels && exists c :: c in db.runtime && Encloses(ev, c) && c.correlationId == k.correlationId
    ensures GetProjection(ev, db) == ks
  {
    AscendingDetermined(GetProjection(ev, db), ks, KernelRowId);
  }

  /** Each launched kernel is found again from its own API call: looking up the call by kernel and
      projecting those calls back onto the kernel table gives the kernel. */
  lemma CorrelationRoundTrip(db: Db, k: Kernel)
    requires k in db.kernels
    requires exists c :: c in db.runtime && c.correlationId == k.correlationId
    ensures k in GetKernelsFromApiCalls(db, GetCudaApiCallFor(db, KernelTarget(k)).value)
  {
  }
}
