/**
  The page fetcher with its fixed retry schedule. The HTTP request is not
  modelled: `net(k)` is the result of the k-th request issued for the page
  (counting from 0), every request being a re-issue of the same GET.
 */
module Pages {

  /** What one HTTP request does: answers with a body, times out, or raises some other error. */
  datatype Attempt = Answered(body: string) | TimedOut | Failed

  /** The console and log lines the fetcher writes. */
  datatype Notice =
    | TimeoutNotice   // "Timeout requesting page", console and log
    | RetryingNotice  // "Error requesting page ... Retrying...", console, after every error
    | GaveUpNotice    // "Error requesting page ...", log only, once the schedule is spent

  /** The delays consumed, front to back, before each retry. */
  const RetryDelays: seq<nat> := [3, 3, 3, 3, 3]

  /** The notices written for the final request, after the retrying notices of the earlier ones. */
  function FinalNotices(last: Attempt): seq<Notice> {
    match last
    case Answered(_) => []
    case TimedOut => [TimeoutNotice]
    case Failed => [RetryingNotice, GaveUpNotice]
  }

  function Repeat(n: nat, x: Notice): (r: seq<Notice>)
    ensures |r| == n && forall i :: 0 <= i < n ==> r[i] == x
  {
    seq(n, _ => x)
  }

  /**
    get_page. Issues the request; a timeout gives up at once; any other error
    takes the next delay off the schedule, sleeps it and re-issues the request,
    or gives up once the schedule is empty; an answer returns its body. Giving
    up returns the empty string. `slept` lists the delays slept, in order.
   */
  method GetPage(net: nat -> Attempt) returns (body: string, attempts: nat, slept: seq<nat>, notices: seq<Notice>)
    ensures 1 <= attempts <= |RetryDelays| + 1
    ensures forall k :: 0 <= k < attempts - 1 ==> net(k).Failed?
    ensures net(attempts - 1).Failed? ==> attempts == |RetryDelays| + 1
    ensures body == if net(attempts - 1).Answered? then net(attempts - 1).body else ""
    ensures slept == RetryDelays[..attempts - 1]
    ensures notices == Repeat(attempts - 1, RetryingNotice) + FinalNotices(net(attempts - 1))
  {
    var retries := RetryDelays;
    slept, notices := [], [];
    var res := net(0);
    attempts := 1;
    while res.Failed? && retries != []
      invariant 1 <= attempts <= |RetryDelays| + 1
      invariant retries == RetryDelays[attempts - 1..]
      invariant slept == RetryDelays[..attempts - 1]
      invariant res == net(attempts - 1)
      invariant forall k :: 0 <= k < attempts - 1 ==> net(k).Failed?
      invariant notices == Repeat(attempts - 1, RetryingNotice)
      decreases |retries|
    {
      notices := notices + [RetryingNotice];
      var delay := retries[0];
      retries := retries[1..];
      slept := slept + [delay];
      res := net(attempts);
      attempts := attempts + 1;
    }
    notices := notices + FinalNotices(res);
    body := if res.Answered? then res.body else "";
  }
}
