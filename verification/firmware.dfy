/**
 * The firmware as it runs: `setup` once, then the main loop once per poll,
 * updating a single job in place.
 */
module Firmware {
  import opened Bytes
  import opened Command
  import opened Bridge
  import opened Trace

  /**
   * Powers up the bridge and runs the main loop over `polls`, accumulating
   * the status lines and printer bytes. The result is the banner followed by
   * exactly what the functional run describes, and the job ends in a state
   * satisfying the bridge invariant.
   */
  method RunBridge(decode: Decoder, polls: seq<Poll>) returns (job: PrintJob, host: seq<Token>, printer: seq<byte>)
    requires RunDefined(decode, ResetJob, polls)
    ensures var r := Run(decode, ResetJob, polls);
      job == r.job && host == [BridgeReady] + r.host && printer == r.printer
    ensures Inv(job)
  {
    var boot := Setup();
    job, host, printer := boot.job, boot.host, boot.printer;
    ghost var full := Run(decode, ResetJob, polls);
    var i := 0;
    while i < |polls|
      invariant 0 <= i <= |polls|
      invariant RunDefined(decode, job, polls[i..])
      invariant var rest := Run(decode, job, polls[i..]);
        && full.job == rest.job
        && [BridgeReady] + full.host == host + rest.host
        && full.printer == printer + rest.printer
    {
      var p := polls[i];
      assert polls[i..][0] == p && polls[i..][1..] == polls[i + 1..];
      RunUncons(decode, job, polls[i..]);
      var out := Step(decode, job, p);
      ghost var rest' := Run(decode, out.job, polls[i + 1..]);
      assert host + (out.host + rest'.host) == (host + out.host) + rest'.host;
      assert printer + (out.printer + rest'.printer) == (printer + out.printer) + rest'.printer;
      job, host, printer := out.job, host + out.host, printer + out.printer;
      i := i + 1;
    }
    RunPreservesInv(decode, ResetJob, polls);
  }
}
