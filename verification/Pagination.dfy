/** Keyset pagination: limits, opaque cursors and the cutting of over-fetched pages. */
module Pagination {
  import opened Common

  const DEFAULT_LIMIT := 20
  const MAX_LIMIT := 100

  /** What `Number(requestedLimit)` makes of a requested limit. */
  datatype RequestedLimit = NotAnInteger | IntegerLimit(n: int)

  function ResolveLimit(
      requested: RequestedLimit, defaultLimit: int := DEFAULT_LIMIT, maxLimit: int := MAX_LIMIT): int
  {
    match requested
    case NotAnInteger => defaultLimit
    case IntegerLimit(n) => if n <= 0 then defaultLimit else if n < maxLimit then n else maxLimit
  }

  /**
   * A resolved limit is at least 1 and at most the maximum, for every request: the request
   * itself in that range, the maximum above it, and the default for anything else.
   */
  lemma LimitInRange(requested: RequestedLimit, defaultLimit: int, maxLimit: int)
    requires 1 <= defaultLimit <= maxLimit
    ensures 1 <= ResolveLimit(requested, defaultLimit, maxLimit) <= maxLimit
    ensures requested.IntegerLimit? && 1 <= requested.n <= maxLimit ==>
            ResolveLimit(requested, defaultLimit, maxLimit) == requested.n
    ensures requested.IntegerLimit? && maxLimit < requested.n ==>
            ResolveLimit(requested, defaultLimit, maxLimit) == maxLimit
    ensures requested.NotAnInteger? || requested.n < 1 ==>
            ResolveLimit(requested, defaultLimit, maxLimit) == defaultLimit
  {
  }

  /**
   * The cursor pair. `decode` gives the id of a decoded cursor, nothing for a malformed,
   * empty or tampered one.
   */
  datatype Codec = Codec(encode: nat -> string, decode: string -> Option<nat>)

  /** Decoding undoes encoding, for the ids that rows have; no cursor is empty. */
  ghost predicate Inverse(codec: Codec) {
    forall id | id > 0 :: codec.encode(id) != "" && codec.decode(codec.encode(id)) == Some(id)
  }

  datatype PageMeta = PageMeta(nextCursor: Option<string>, hasMore: bool, limit: nat)

  datatype Page<+R> = Page(rows: seq<R>, meta: PageMeta)

  /** Cuts a result that was fetched with one row more than the limit. */
  function BuildPageMeta<R>(rows: seq<R>, limit: nat, cursorOf: R -> string): Page<R> {
    var hasMore := |rows| > limit;
    var pageRows := if hasMore then rows[..limit] else rows;
    Page(pageRows,
         PageMeta(
           if hasMore && |pageRows| > 0 then Some(cursorOf(pageRows[|pageRows| - 1])) else None,
           hasMore,
           limit))
  }
}
