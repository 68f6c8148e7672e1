/** Failure-carrying values used by every route: an optional value (JavaScript's
    `null`/`undefined` or a missing record) and the outcome of a call that can
    throw, carrying the thrown error's message. */
module Wrappers {

  datatype Option<+T> = None | Some(value: T)

  datatype Result<+T> = Ok(value: T) | Err(message: string)

  /** The value of a call whose failure the caller replaces by `""`
      (`try { x = await f() } catch { x = "" }` and `.catch(() => "")`). */
  function OrEmpty(r: Result<string>): (s: string)
    ensures r.Ok? ==> s == r.value
    ensures r.Err? ==> s == ""
  {
    match r
    case Ok(v) => v
    case Err(_) => ""
  }

  /** `Promise.all` over calls that have already settled, taken in index
      order: every value when all succeed, otherwise the error of the first
      failing call. */
  function All<T>(rs: seq<Result<T>>): (r: Result<seq<T>>)
    ensures r.Ok? <==> forall i :: 0 <= i < |rs| ==> rs[i].Ok?
    ensures r.Ok? ==> |r.value| == |rs| && forall i :: 0 <= i < |rs| ==> rs[i] == Ok(r.value[i])
    ensures r.Err? ==> exists i :: 0 <= i < |rs| && rs[i] == Err(r.message) &&
                                  forall j :: 0 <= j < i ==> rs[j].Ok?
    decreases |rs|
  {
    if |rs| == 0 then Ok([])
    else match rs[0]
      case Err(m) => Err(m)
      case Ok(v) =>
        match All(rs[1..])
        case Ok(vs) => Ok([v] + vs)
        case Err(m) =>
          assert forall i :: 1 <= i < |rs| ==> rs[i] == rs[1..][i - 1];
          Err(m)
  }
}
