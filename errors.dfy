/** The error conditions the trace query layer can raise, with the texts it raises them with. */
module Errors {

  /** Table name of the NVTX annotation ranges; a trace without annotations has no such table. */
  const NvtxTable: string := "NVTX_EVENTS"

  /** Text of the ValueError raised by the name-based kernel query when no name filter is given. */
  const NoNameFilterMessage: string :=
    "Must provide at least one of viaShortName, viaDemangledName, viaMangledName"

  /** Text of the TypeError raised when an API-call lookup gets neither an id nor a kernel. */
  const UnsupportedTargetMessage: string := "Must be int or CuptiActivityKindKernel (for now)"

  /** Text of the KeyError raised for a missing table, with the hint that no NVTX ranges were profiled. */
  function MissingTableMessage(table: string): string
  {
    "Could not find table: " + table + "; it is likely there are no NVTX events profiled."
  }

  datatype Error =
    /** A `fetchone` returned no row and the caller used its result as a row (a TypeError in
        `analysis.py`: subscripting or unpacking `None`). */
    | NoRow
    /** The ValueError of the name-based kernel query. */
    | NoNameFilter(message: string)
    /** The TypeError of the API-call lookup. */
    | UnsupportedTarget(message: string)
    /** The KeyError for a table the trace does not contain. */
    | MissingTable(table: string, message: string)
}
