/** Values shared by every component: identifiers, optional values, the outcome
    of one HTTP fetch and the JavaScript numbers that scores and percentages are. */
module Common {

  /** Database identifiers are only ever compared for strict equality; the empty
      string is the one falsy identifier. */
  type Id = string

  datatype Option<+T> = None | Some(value: T)

  /** The outcome of one awaited `api.get` / `api.post`: the response body, or a
      rejected promise. */
  datatype Fetched<+T> = Ok(data: T) | Failed

  /** A JavaScript number as far as scores and percentages need it: an
      integer; `null`, which `Number.isFinite` rejects but arithmetic reads as
      0; or any other value `Number.isFinite` rejects (NaN, an infinity, an
      undefined score). */
  datatype JsNumber = Finite(value: int) | Null | NotFinite

  /** The guarded score of the sums: a finite number counts as itself,
      anything else as 0. */
  function FiniteOrZero(x: JsNumber): (v: int)
    ensures x.Finite? ==> v == x.value
    ensures !x.Finite? ==> v == 0
  {
    match x
    case Finite(n) => n
    case Null => 0
    case NotFinite => 0
  }
}
