/** What a scaler-managed agent does about its idle timer. */
module IdleShutdown {

  datatype Decision = Nothing | Warm | PendingDispatch | Idle

  function DecideIdleShutdown(
      scalerManaged: bool, activeJobs: nat, pendingDispatch: bool, warmPool: bool, singleJobServed: bool): (d: Decision)
    ensures d == Nothing <==> !scalerManaged || activeJobs > 0
    ensures d == Warm ==> warmPool && !singleJobServed
    ensures d == PendingDispatch ==> pendingDispatch && !warmPool && !singleJobServed
    ensures scalerManaged && activeJobs == 0 && (singleJobServed || (!warmPool && !pendingDispatch)) ==> d == Idle
  {
    if !scalerManaged || activeJobs > 0 then Nothing
    else if singleJobServed then Idle
    else if warmPool then Warm
    else if pendingDispatch then PendingDispatch
    else Idle
  }

  function IdleShutdownDelayMs(scalerIdleTimeoutMs: int, singleJob: bool, servedJob: bool): int {
    if singleJob && servedJob then 0 else scalerIdleTimeoutMs
  }
}
