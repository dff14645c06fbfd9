/** The account fields that webhooks and logins read and write. */
module Users {
  import opened Text
  import opened Limiter

  class User {
    var webhookUrl: string
    var webhookOnDone: bool
    var webhookOnFailed: bool
    var totpEnabled: bool
    var webhookFailureCount: nat
    var webhookCircuitOpenUntil: Option<int>
    var failedLoginAttempts: nat
    var lockedUntil: Option<int>

    constructor (url: string)
      ensures webhookUrl == url && webhookOnFailed && !webhookOnDone && !totpEnabled
      ensures Webhooks() == CLOSED && Logins() == CLOSED
    {
      webhookUrl, webhookOnDone, webhookOnFailed, totpEnabled := url, false, true, false;
      webhookFailureCount, webhookCircuitOpenUntil := 0, None;
      failedLoginAttempts, lockedUntil := 0, None;
    }

    /** The webhook circuit breaker as a limiter. */
    function Webhooks(): Limiter
      reads this`webhookFailureCount, this`webhookCircuitOpenUntil
    {
      Limiter(webhookFailureCount, webhookCircuitOpenUntil)
    }

    /** The login lockout as a limiter. */
    function Logins(): Limiter
      reads this`failedLoginAttempts, this`lockedUntil
    {
      Limiter(failedLoginAttempts, lockedUntil)
    }
  }
}
