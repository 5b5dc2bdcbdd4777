/** Optional values, and the "absent | present" wrapper that update inputs use
    so that an omitted field and a field explicitly set to null stay distinct. */
module Wrappers {

  /** A nullable column or input field: `None` is SQL NULL / JavaScript null. */
  datatype Option<+T> = None | Some(value: T)

  /** A field of a sparse patch: `Absent` is a key the caller left undefined,
      `Present(v)` is a key the caller supplied (v may itself be a null `Option`). */
  datatype Patch<+T> = Absent | Present(value: T)

  /** The value a column holds after the patch field `p` is applied to `current`. */
  function Apply<T>(p: Patch<T>, current: T): T
  {
    if p.Present? then p.value else current
  }

  /** The patch field that has the effect of `p` followed by `q`: a later
      present field wins, an absent one keeps the earlier choice. */
  function Then<T>(p: Patch<T>, q: Patch<T>): Patch<T>
  {
    if q.Present? then q else p
  }

  /** `after` is what a column holds once patch field `p` is applied to `before`:
      the supplied value if there is one, otherwise `before` unchanged. */
  predicate Written<T(==)>(p: Patch<T>, before: T, after: T)
  {
    match p
    case Absent => after == before
    case Present(v) => after == v
  }
}
