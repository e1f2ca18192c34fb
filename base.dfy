/** Small value helpers shared by every module: an optional value and the
    JavaScript `||` defaulting the route handlers apply to request fields. */
module Base {

  datatype Option<+T> = None | Some(value: T) {
    function GetOr(default: T): (r: T)
      ensures Some? ==> r == value
      ensures None? ==> r == default
    {
      match this
      case Some(v) => v
      case None => default
    }
  }

  /** `s || d` for a string field: the empty string is falsy, so it (like an
      omitted field, which the model writes as "") is replaced by the default. */
  function OrStr(s: string, d: string): (r: string)
    ensures s != "" ==> r == s
    ensures s == "" ==> r == d
  {
    if s == "" then d else s
  }

  /** `parseInt(x) || d`: the parse result NaN (None) and 0 are both falsy. */
  function IntOr(p: Option<int>, d: int): (r: int)
    ensures p.Some? && p.value != 0 ==> r == p.value
    ensures (p.None? || p.value == 0) ==> r == d
  {
    if p.None? || p.value == 0 then d else p.value
  }

  /** One field of the spread `{ ...before, ...body }`: the body's value
      when the body names the field, the earlier value otherwise. */
  predicate Overlays<T(==)>(o: Option<T>, before: T, after: T)
  {
    match o
    case Some(v) => after == v
    case None => after == before
  }

  function Min(a: int, b: int): int { if a <= b then a else b }
  function Max(a: int, b: int): int { if a >= b then a else b }
}
