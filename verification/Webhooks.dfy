/** Webhook delivery behind the circuit breaker. */
module Webhooks {
  import opened Text
  import opened Limiter
  import opened Users
  import TransferJobs

  const SKIPPED := "Circuit breaker otwarty — dostarczenie pominięte"

  /** A row of the delivery log. */
  datatype Delivery = Delivery(job: Option<int>, url: string, success: bool, skipped: bool, error: string)

  class DeliveryLog {
    var rows: seq<Delivery>

    constructor ()
      ensures rows == []
    {
      rows := [];
    }

    method Add(row: Delivery)
      modifies this
      ensures rows == old(rows) + [row]
    {
      rows := rows + [row];
    }
  }

  /** How a notification function ends: it posted, it chose not to, or it raised. */
  datatype Notification = Sent | NotSent | Raises(error: string)

  /** What the network does with a post: `None` is a success status. */
  type Reply = Option<string>

  function Posted(reply: Reply): Notification
  {
    if reply == None then Sent else Raises(reply.value)
  }

  /** The notification about a finished job. */
  function JobNotification(url: string, onDone: bool, onFailed: bool,
                           status: TransferJobs.Status, publicUrl: bool, reply: Reply): Notification
  {
    if url == "" || (status == TransferJobs.Done && !onDone) || (status == TransferJobs.Failed && !onFailed)
       || !publicUrl then NotSent
    else Posted(reply)
  }

  /** The notification about a connection that failed or recovered. */
  function HealthNotification(url: string, onFailed: bool, publicUrl: bool, reply: Reply): Notification
  {
    if url == "" || !onFailed || !publicUrl then NotSent else Posted(reply)
  }

  function OutcomeOf(notification: Notification): Outcome
  {
    match notification
    case Sent => Succeeds
    case NotSent => Silent
    case Raises(_) => Fails
  }

  /** What the delivery log says about an attempt. */
  function Logged(job: Option<int>, url: string, verdict: Verdict, notification: Notification): seq<Delivery>
  {
    match verdict
    case Refused => [Delivery(job, url, false, true, SKIPPED)]
    case Succeeded => [Delivery(job, url, true, false, "")]
    case Failed => [Delivery(job, url, false, false, if notification.Raises? then notification.error else "")]
    case Unrecorded => []
  }

  // ------------------------------------------------ what a delivery leaves behind

  /** What the tasks write: the breaker's two fields and the delivery log. */
  datatype Account = Account(failures: nat, openUntil: Option<int>, rows: seq<Delivery>)

  /** A notification that is due for sending: whether the user wants it for what
      happened, whether the address is public, what the network will answer, and
      when the task asks the breaker and records the outcome. */
  datatype Post = Post(job: Option<int>, url: string, wanted: bool, isPublic: bool, reply: Reply, start: int, end: int)

  predicate BreakerOpen(a: Account, post: Post)
  {
    a.openUntil.Some? && post.start < a.openUntil.value
  }

  /** Something is sent exactly when there is an address, a public one, the breaker
      is closed and the user wants it. */
  predicate IsSent(a: Account, post: Post)
  {
    post.url != "" && post.isPublic && !BreakerOpen(a, post) && post.wanted
  }

  /** From account `a` a delivery leads to `b`. */
  predicate Delivers(a: Account, post: Post, b: Account)
  {
    && (IsSent(a, post) && post.reply == None ==>
          b == Account(0, None, a.rows + [Delivery(post.job, post.url, true, false, "")]))
    && (IsSent(a, post) && post.reply.Some? ==>
          && b.failures == a.failures + 1
          && b.openUntil == (if b.failures >= 5 then Some(post.end + 900_000_000) else a.openUntil)
          && b.rows == a.rows + [Delivery(post.job, post.url, false, false, post.reply.value)])
    && (post.url != "" && BreakerOpen(a, post) ==>
          b == a.(rows := a.rows + [Delivery(post.job, post.url, false, true, SKIPPED)]))
    && (!IsSent(a, post) && (post.url == "" || !BreakerOpen(a, post)) ==> b == a)
  }

  function AccountOf(user: User, log: DeliveryLog): Account
    reads user`webhookFailureCount, user`webhookCircuitOpenUntil, log
  {
    Account(user.webhookFailureCount, user.webhookCircuitOpenUntil, log.rows)
  }

  /** For the breaker, a delivery is one attempt at the limiter. */
  lemma DeliveryIsAttempt(a: Account, post: Post, b: Account)
    requires Delivers(a, post, b) && post.url != ""
    ensures var outcome := if !post.wanted || !post.isPublic then Silent else if post.reply == None then Succeeds else Fails;
            var attempt := Attempt(post.start, post.end, outcome);
            && Limiter(b.failures, b.openUntil) == Advance(Limiter(a.failures, a.openUntil), attempt)
            && (IsSent(a, post) && post.reply.Some? <==> Judge(Limiter(a.failures, a.openUntil), attempt) == Verdict.Failed)
  {
  }

  /** One delivery after the other. */
  predicate Chain(accounts: seq<Account>, posts: seq<Post>)
  {
    |accounts| == |posts| + 1
    && forall i | 0 <= i < |posts| :: Delivers(accounts[i], posts[i], accounts[i + 1])
  }

  lemma {:induction false} FailuresCount(accounts: seq<Account>, posts: seq<Post>, n: nat)
    requires Chain(accounts, posts) && n <= |posts|
    requires forall i | 0 <= i < n :: IsSent(accounts[i], posts[i]) && posts[i].reply.Some?
    ensures accounts[n].failures == accounts[0].failures + n
  {
    if n > 0 { FailuresCount(accounts, posts, n - 1); }
  }

  /** Five failing posts in a row, whatever came before: the next delivery that starts
      within fifteen minutes after the fifth is skipped, and logged as skipped. */
  lemma FiveFailuresThenSkip(accounts: seq<Account>, posts: seq<Post>)
    requires |posts| == 6 && Chain(accounts, posts)
    requires forall i | 0 <= i < 5 :: IsSent(accounts[i], posts[i]) && posts[i].reply.Some?
    requires posts[5].url != "" && posts[5].start < posts[4].end + 900_000_000
    ensures accounts[5].failures == accounts[0].failures + 5
    ensures accounts[6]
         == accounts[5].(rows := accounts[5].rows + [Delivery(posts[5].job, posts[5].url, false, true, SKIPPED)])
  {
    FailuresCount(accounts, posts, 5);
  }

  method CircuitIsOpen(user: User, now: int) returns (open: bool)
    ensures open == Open(user.Webhooks(), now)
  {
    open := user.webhookCircuitOpenUntil.Some? && user.webhookCircuitOpenUntil.value > now;
  }

  /** Saves only if there is something to clear. */
  method RecordSuccess(user: User) returns (saved: bool)
    modifies user`webhookFailureCount, user`webhookCircuitOpenUntil
    ensures user.Webhooks() == CLOSED
    ensures saved <==> old(user.Webhooks()) != CLOSED
  {
    saved := user.webhookFailureCount != 0 || user.webhookCircuitOpenUntil.Some?;
    if saved {
      user.webhookFailureCount := 0;
      user.webhookCircuitOpenUntil := None;
    }
  }

  method RecordFailure(user: User, now: int)
    modifies user`webhookFailureCount, user`webhookCircuitOpenUntil
    ensures user.Webhooks() == AfterFailure(old(user.Webhooks()), now)
  {
    user.webhookFailureCount := user.webhookFailureCount + 1;
    if user.webhookFailureCount >= THRESHOLD {
      user.webhookCircuitOpenUntil := Some(now + COOLDOWN);
    }
  }

  /** Delivers past the breaker: the part that both tasks share. */
  method Deliver(user: User, log: DeliveryLog, job: Option<int>, notification: Notification, start: int, end: int)
    returns (failed: bool)
    modifies user`webhookFailureCount, user`webhookCircuitOpenUntil, log
    ensures var attempt := Attempt(start, end, OutcomeOf(notification));
            var verdict := Judge(old(user.Webhooks()), attempt);
            && user.Webhooks() == Advance(old(user.Webhooks()), attempt)
            && log.rows == old(log.rows) + Logged(job, user.webhookUrl, verdict, notification)
            && failed == (verdict == Failed)
  {
    failed := false;
    var open := CircuitIsOpen(user, start);
    if open {
      log.Add(Delivery(job, user.webhookUrl, false, true, SKIPPED));
      return;
    }
    match notification {
      case Raises(error) =>
        RecordFailure(user, end);
        log.Add(Delivery(job, user.webhookUrl, false, false, error));
        failed := true;
      case Sent =>
        var _ := RecordSuccess(user);
        log.Add(Delivery(job, user.webhookUrl, true, false, ""));
      case NotSent =>
    }
  }

  /** The task for a finished job. `status` is missing if the job is. */
  method SendWebhook(user: User, log: DeliveryLog, job: int, status: Option<TransferJobs.Status>,
                     publicUrl: bool, reply: Reply, start: int, end: int)
    returns (retry: bool)
    modifies user`webhookFailureCount, user`webhookCircuitOpenUntil, log
    ensures status == None ==> AccountOf(user, log) == old(AccountOf(user, log)) && !retry
    ensures status.Some? ==>
      var wanted := (status == Some(TransferJobs.Done) ==> user.webhookOnDone)
                    && (status == Some(TransferJobs.Failed) ==> user.webhookOnFailed);
      var was := old(AccountOf(user, log));
      var post := Post(Some(job), user.webhookUrl, wanted, publicUrl, reply, start, end);
      Delivers(was, post, AccountOf(user, log)) && (retry <==> IsSent(was, post) && reply.Some?)
  {
    retry := false;
    if status.Some? && user.webhookUrl != "" {
      var notification := JobNotification(user.webhookUrl, user.webhookOnDone, user.webhookOnFailed,
                                          status.value, publicUrl, reply);
      retry := Deliver(user, log, Some(job), notification, start, end);
    }
  }

  /** The task for a connection whose health changed; it is never retried. The
      e-mail and Telegram calls come first: if one of them raises, so does the
      task, and the webhook is not reached. */
  method SendHealthNotification(user: User, log: DeliveryLog, found: bool, mailRaises: bool, telegramRaises: bool,
                                publicUrl: bool, reply: Reply, start: int, end: int)
    returns (raised: bool)
    modifies user`webhookFailureCount, user`webhookCircuitOpenUntil, log
    ensures raised <==> found && (mailRaises || telegramRaises)
    ensures !found || raised ==> AccountOf(user, log) == old(AccountOf(user, log))
    ensures found && !raised ==>
      Delivers(old(AccountOf(user, log)),
               Post(None, user.webhookUrl, user.webhookOnFailed, publicUrl, reply, start, end), AccountOf(user, log))
  {
    raised := false;
    if !found { return; }
    if mailRaises { return true; }
    if telegramRaises { return true; }
    if user.webhookUrl != "" {
      var notification := HealthNotification(user.webhookUrl, user.webhookOnFailed, publicUrl, reply);
      var _ := Deliver(user, log, None, notification, start, end);
    }
  }
}
