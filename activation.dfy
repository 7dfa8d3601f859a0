/** The bounded activation retry of `activate_device`. */
module Activation {
  import opened Common

  /** `MAX_RETRY_ATTEMPTS`. */
  const MaxRetryAttempts: nat := 5

  /** The index of the first HTTP 200 among the responses, or their number if there is none. */
  function FirstOk(rs: seq<Outcome>): (k: nat)
    ensures k <= |rs|
    ensures forall i | 0 <= i < k :: !rs[i].IsOk()
    ensures k < |rs| ==> rs[k].IsOk()
  {
    if rs == [] then 0 else if rs[0].IsOk() then 0 else 1 + FirstOk(rs[1..])
  }

  /** The number of POSTs `activate_device` makes: up to and including the first success. */
  function AttemptsMade(rs: seq<Outcome>): (n: nat)
    ensures n <= |rs|
    ensures rs != [] ==> n >= 1
    ensures forall i | 0 <= i < n - 1 :: !rs[i].IsOk()
    ensures n == |rs| || rs[n - 1].IsOk()
  {
    if FirstOk(rs) < |rs| then FirstOk(rs) + 1 else |rs|
  }
}
