/** Delays between attempts, as both workers compute them. */
module Backoff {

  function Power(n: nat): (r: nat)
    ensures r >= 1
  {
    if n == 0 then 1 else 2 * Power(n - 1)
  }

  /** Milliseconds before attempt `next`. */
  function Delay(next: nat): nat
    requires next >= 2
  {
    5000 * Power(next - 2)
  }

  /** Five seconds before the second attempt, and twice as long before each further one. */
  lemma DelaysDouble(next: nat)
    requires next >= 2
    ensures Delay(2) == 5000 && Delay(next + 1) == 2 * Delay(next)
  {
  }

  lemma {:induction false} PowerGrows(m: nat, n: nat)
    requires m <= n
    ensures Power(m) <= Power(n)
  {
    if m < n { PowerGrows(m, n - 1); }
  }
}
