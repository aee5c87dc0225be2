/**
 * The capacity answer of the registration status endpoint: seats left against the limit and
 * whether registration is open, or a 500 when the count of active submissions cannot be read.
 */
module RegistrationStatus {
  import opened Wrappers

  datatype StatusResponse =
    | Capacity(total: int, limit: int, available: int, open: bool)
    | StatusError(status: nat, error: string)

  const CapacityError: string := "Unable to determine registration capacity."

  /** `Math.max(limit - total, 0)`. */
  function Available(total: int, limit: int): (a: int)
    ensures a >= 0
    ensures a == 0 <==> total >= limit
    ensures a > 0 ==> a == limit - total
    ensures 0 <= total && 0 <= limit ==> a <= limit
  {
    if limit - total > 0 then limit - total else 0
  }

  /**
   * `GET`: `count` is the awaited count of active submissions, or the error it threw; `limit`
   * is the configured registration limit.
   */
  function Get(count: Result<int, string>, limit: int): (r: StatusResponse)
    ensures count.Failure? <==> r.StatusError?
    ensures r.StatusError? ==> r.status == 500 && r.error == CapacityError
    ensures r.Capacity? ==> (r.total == count.value && r.limit == limit
      && r.available == Available(count.value, limit) && (r.open <==> count.value < limit))
  {
    match count
    case Failure(_) => StatusError(500, CapacityError)
    case Success(total) => Capacity(total, limit, Available(total, limit), total < limit)
  }

  /** Registration is open exactly when seats are left. */
  lemma OpenIffSeatsLeft(count: Result<int, string>, limit: int)
    requires Get(count, limit).Capacity?
    ensures Get(count, limit).open <==> Get(count, limit).available > 0
    ensures !Get(count, limit).open ==> Get(count, limit).available == 0
  {
  }
}
