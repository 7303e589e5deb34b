/**
 * Runs of the bridge over a sequence of polls, and what a payload transfer
 * of several chunks does end to end.
 */
module Trace {
  import opened Options
  import opened Bytes
  import opened Command
  import opened Printer
  import opened Bridge

  /** Every poll of the run is one the firmware's behaviour is defined for, in the job it meets. */
  predicate RunDefined(decode: Decoder, job: PrintJob, ps: seq<Poll>)
    decreases |ps|
  {
    |ps| == 0 || (Defined(decode, job, ps[0]) && RunDefined(decode, Step(decode, job, ps[0]).job, ps[1..]))
  }

  /** The polls one after another: the final job and everything sent to the host and the printer, in order. */
  function Run(decode: Decoder, job: PrintJob, ps: seq<Poll>): (r: Output)
    requires RunDefined(decode, job, ps)
    ensures |r.host| <= 2 * |ps|
    decreases |ps|
  {
    if |ps| == 0 then Output(job, [], [])
    else
      var first := Step(decode, job, ps[0]);
      var rest := Run(decode, first.job, ps[1..]);
      Output(rest.job, first.host + rest.host, first.printer + rest.printer)
  }

  /** A run that starts with poll `p` is that poll's step followed by the run of the rest. */
  lemma RunCons(decode: Decoder, job: PrintJob, p: Poll, ps: seq<Poll>)
    requires Defined(decode, job, p) && RunDefined(decode, Step(decode, job, p).job, ps)
    ensures RunDefined(decode, job, [p] + ps)
    ensures var first := Step(decode, job, p);
            var rest := Run(decode, first.job, ps);
      Run(decode, job, [p] + ps) == Output(rest.job, first.host + rest.host, first.printer + rest.printer)
  {
    assert ([p] + ps)[0] == p && ([p] + ps)[1..] == ps;
  }

  /** A non-empty run is its first poll's step followed by the run of the remaining polls. */
  lemma RunUncons(decode: Decoder, job: PrintJob, ps: seq<Poll>)
    requires |ps| > 0 && RunDefined(decode, job, ps)
    ensures Defined(decode, job, ps[0])
    ensures var first := Step(decode, job, ps[0]);
      && RunDefined(decode, first.job, ps[1..])
      && var rest := Run(decode, first.job, ps[1..]);
      Run(decode, job, ps) == Output(rest.job, first.host + rest.host, first.printer + rest.printer)
  {
  }

  /** The bridge invariant holds after every run that starts in it. */
  lemma {:induction false} RunPreservesInv(decode: Decoder, job: PrintJob, ps: seq<Poll>)
    requires Inv(job) && RunDefined(decode, job, ps)
    ensures Inv(Run(decode, job, ps).job)
    decreases |ps|
  {
    if |ps| > 0 {
      RunPreservesInv(decode, Step(decode, job, ps[0]).job, ps[1..]);
    }
  }

  /** How many times a status line occurs. */
  function Occurrences(ts: seq<Token>, t: Token): nat {
    if |ts| == 0 then 0 else (if ts[0] == t then 1 else 0) + Occurrences(ts[1..], t)
  }

  /** Occurrences add up over concatenation. */
  lemma {:induction false} OccurrencesAppend(a: seq<Token>, b: seq<Token>, t: Token)
    ensures Occurrences(a + b, t) == Occurrences(a, t) + Occurrences(b, t)
  {
    if |a| == 0 {
      assert a + b == b;
    } else {
      assert (a + b)[1..] == a[1..] + b;
      OccurrencesAppend(a[1..], b, t);
    }
  }

  /** The number of polls in a run that read payload bytes, i.e. that found data while a job was in progress. */
  function ForwardingPolls(decode: Decoder, job: PrintJob, ps: seq<Poll>): nat
    requires RunDefined(decode, job, ps)
    decreases |ps|
  {
    if |ps| == 0 then 0
    else
      (if job.inProgress && ps[0].Data? then 1 else 0)
        + ForwardingPolls(decode, Step(decode, job, ps[0]).job, ps[1..])
  }

  /** A single poll answers one ACK if it forwarded payload and none otherwise. */
  lemma StepAcks(decode: Decoder, job: PrintJob, p: Poll)
    requires Defined(decode, job, p)
    ensures Occurrences(Step(decode, job, p).host, Ack) == if job.inProgress && p.Data? then 1 else 0
  {
    var host := Step(decode, job, p).host;
    if job.inProgress && p.Data? {
      assert host == [Ack] || host == [Ack, PrintComplete];
      assert host[1..] == [] || host[1..] == [PrintComplete];
    } else if p.Data? {
      assert host == [ErrorInvalidJson] || host == [ErrorUnknownCommand] || host == [Ready];
    }
  }

  /** In any run the bridge answers exactly one ACK per poll that forwarded payload, and none otherwise. */
  lemma {:induction false} AcksCountForwards(decode: Decoder, job: PrintJob, ps: seq<Poll>)
    requires RunDefined(decode, job, ps)
    ensures Occurrences(Run(decode, job, ps).host, Ack) == ForwardingPolls(decode, job, ps)
    decreases |ps|
  {
    if |ps| > 0 {
      var first := Step(decode, job, ps[0]);
      AcksCountForwards(decode, first.job, ps[1..]);
      OccurrencesAppend(first.host, Run(decode, first.job, ps[1..]).host, Ack);
      StepAcks(decode, job, ps[0]);
    }
  }

  /** `n` acknowledgements in a row. */
  function Acks(n: nat): seq<Token> {
    if n == 0 then [] else [Ack] + Acks(n - 1)
  }

  /** A transfer's status lines: `n` ACKs, then PRINT_COMPLETE once, contain each exactly as often. */
  lemma {:induction false} TransferTokenCounts(n: nat)
    ensures Occurrences(Acks(n) + [PrintComplete], Ack) == n
    ensures Occurrences(Acks(n) + [PrintComplete], PrintComplete) == 1
    ensures Occurrences(Acks(n) + [PrintComplete], Ready) == 0
  {
    if n > 0 {
      assert (Acks(n) + [PrintComplete])[1..] == Acks(n - 1) + [PrintComplete];
      TransferTokenCounts(n - 1);
    } else {
      assert Acks(n) + [PrintComplete] == [PrintComplete];
    }
  }

  /** Each chunk as the poll that reads it. */
  function ChunkPolls(cs: seq<seq<byte>>): (ps: seq<Poll>)
    ensures |ps| == |cs|
  {
    if |cs| == 0 then [] else [Data(cs[0])] + ChunkPolls(cs[1..])
  }

  /** Every chunk holds between one byte and a buffer's worth. */
  predicate ValidChunks(cs: seq<seq<byte>>) {
    forall i :: 0 <= i < |cs| ==> 1 <= |cs[i]| <= BufferSize
  }

  /** No chunk before the last one brings the count up to the declared size. */
  predicate NoEarlyCompletion(job: PrintJob, cs: seq<seq<byte>>) {
    |cs| <= 1 || job.bytesReceived + TotalLen(cs[..|cs| - 1]) < job.imageSize
  }

  /** A first chunk that does not complete the job is acknowledged and forwarded, and the run continues from the raised count. */
  lemma ReceiveCons(decode: Decoder, job: PrintJob, cs: seq<seq<byte>>)
    requires |cs| >= 1 && job.inProgress && 1 <= |cs[0]| <= BufferSize
    requires job.bytesReceived + |cs[0]| < job.imageSize
    requires RunDefined(decode, job.(bytesReceived := job.bytesReceived + |cs[0]|), ChunkPolls(cs[1..]))
    ensures RunDefined(decode, job, ChunkPolls(cs))
    ensures var r := Run(decode, job.(bytesReceived := job.bytesReceived + |cs[0]|), ChunkPolls(cs[1..]));
      Run(decode, job, ChunkPolls(cs)) == Output(r.job, [Ack] + r.host, cs[0] + r.printer)
  {
    assert ChunkPolls(cs) == [Data(cs[0])] + ChunkPolls(cs[1..]);
    assert Step(decode, job, Data(cs[0])) == Output(job.(bytesReceived := job.bytesReceived + |cs[0]|), [Ack], cs[0]);
    RunCons(decode, job, Data(cs[0]), ChunkPolls(cs[1..]));
  }

  /** A chunk list of one chunk fed to a running job: that chunk is acknowledged and forwarded. */
  lemma ReceiveLast(decode: Decoder, job: PrintJob, cs: seq<seq<byte>>)
    requires |cs| == 1 && job.inProgress && 1 <= |cs[0]| <= BufferSize
    ensures RunDefined(decode, job, ChunkPolls(cs))
    ensures var received := job.bytesReceived + |cs[0]|;
      Run(decode, job, ChunkPolls(cs)) ==
        if received >= job.imageSize then Output(ResetJob, [Ack, PrintComplete], cs[0])
        else Output(job.(bytesReceived := received), [Ack], cs[0])
  {
    assert cs[1..] == [];
    assert ChunkPolls(cs) == [Data(cs[0])] + [];
    RunCons(decode, job, Data(cs[0]), []);
  }

  /** Dropping the first chunk keeps every chunk in range. */
  lemma ValidChunksTail(cs: seq<seq<byte>>)
    requires |cs| >= 1 && ValidChunks(cs)
    ensures ValidChunks(cs[1..])
  {
    forall i | 0 <= i < |cs| - 1 ensures 1 <= |cs[1..][i]| <= BufferSize {
      assert cs[1..][i] == cs[i + 1];
    }
  }

  /**
   * Feeding a running job chunks none of which completes it early forwards
   * their concatenation, answers one ACK per chunk, and answers
   * PRINT_COMPLETE and resets the job exactly when the total reaches the
   * declared size.
   */
  lemma {:induction false} ReceiveTrace(decode: Decoder, job: PrintJob, cs: seq<seq<byte>>)
    requires job.inProgress && ValidChunks(cs) && NoEarlyCompletion(job, cs)
    ensures RunDefined(decode, job, ChunkPolls(cs))
    ensures var r := Run(decode, job, ChunkPolls(cs));
            var total := job.bytesReceived + TotalLen(cs);
            var done := |cs| > 0 && total >= job.imageSize;
      && r.job == (if done then ResetJob else job.(bytesReceived := total))
      && r.host == Acks(|cs|) + (if done then [PrintComplete] else [])
      && r.printer == Concat(cs)
      && |r.printer| == TotalLen(cs)
    decreases |cs|, 1
  {
    ConcatLength(cs);
    if |cs| == 1 {
      assert TotalLen(cs) == |cs[0]| && Concat(cs) == cs[0];
      ReceiveLast(decode, job, cs);
    } else if |cs| > 1 {
      ReceiveMany(decode, job, cs);
    }
  }

  /** The inductive case of `ReceiveTrace`: the first of several chunks cannot complete the job. */
  lemma {:induction false} ReceiveMany(decode: Decoder, job: PrintJob, cs: seq<seq<byte>>)
    requires |cs| > 1 && job.inProgress && ValidChunks(cs) && NoEarlyCompletion(job, cs)
    ensures RunDefined(decode, job, ChunkPolls(cs))
    ensures var r := Run(decode, job, ChunkPolls(cs));
            var total := job.bytesReceived + TotalLen(cs);
            var done := total >= job.imageSize;
      && r.job == (if done then ResetJob else job.(bytesReceived := total))
      && r.host == Acks(|cs|) + (if done then [PrintComplete] else [])
      && r.printer == Concat(cs)
    decreases |cs|, 0
  {
    var rest := cs[1..];
    ValidChunksTail(cs);
    assert (cs[..|cs| - 1])[1..] == rest[..|rest| - 1];
    assert TotalLen(cs[..|cs| - 1]) == |cs[0]| + TotalLen(rest[..|rest| - 1]);
    var next := job.(bytesReceived := job.bytesReceived + |cs[0]|);
    ReceiveTrace(decode, next, rest);
    ReceiveCons(decode, job, cs);
    assert [Ack] + (Acks(|rest|) + [PrintComplete]) == Acks(|cs|) + [PrintComplete];
  }

  /**
   * The first chunk count at which the received total reaches `size`, when
   * the chunks, on top of `received` bytes, reach it at all.
   */
  function FirstCompletion(received: int, size: int, cs: seq<seq<byte>>): (i: nat)
    requires |cs| >= 1 && received + TotalLen(cs) >= size
    ensures 1 <= i <= |cs|
    ensures received + TotalLen(cs[..i]) >= size
    ensures forall j :: 1 <= j < i ==> received + TotalLen(cs[..j]) < size
    decreases |cs|
  {
    if received + |cs[0]| >= size then
      assert cs[..1][1..] == [];
      1
    else
      assert TotalLen(cs) == |cs[0]| + TotalLen(cs[1..]);
      var i := 1 + FirstCompletion(received + |cs[0]|, size, cs[1..]);
      assert cs[..i][1..] == cs[1..][..i - 1];
      assert forall j :: 1 <= j < i ==> cs[..j][1..] == cs[1..][..j - 1];
      i
  }

  /**
   * After a job starts, the chunks up to the first one that reaches the
   * declared size forward exactly their bytes, answer one ACK each and a
   * single PRINT_COMPLETE, and leave the bridge idle.
   */
  lemma CompletionTrace(decode: Decoder, job: PrintJob, cs: seq<seq<byte>>)
    requires job.inProgress && ValidChunks(cs) && |cs| >= 1
    requires job.bytesReceived + TotalLen(cs) >= job.imageSize
    ensures var i := FirstCompletion(job.bytesReceived, job.imageSize, cs);
      && RunDefined(decode, job, ChunkPolls(cs[..i]))
      && var r := Run(decode, job, ChunkPolls(cs[..i]));
      && r.job == ResetJob
      && r.host == Acks(i) + [PrintComplete]
      && Occurrences(r.host, Ack) == i && Occurrences(r.host, PrintComplete) == 1
      && r.printer == Concat(cs[..i])
  {
    var i := FirstCompletion(job.bytesReceived, job.imageSize, cs);
    var pre := cs[..i];
    assert pre[..|pre| - 1] == cs[..i - 1];
    ReceiveTrace(decode, job, pre);
    TransferTokenCounts(i);
  }

  /**
   * The whole protocol from an idle bridge: a "PRINT" line followed by
   * chunks whose lengths add up exactly to the declared size answers READY,
   * one ACK per chunk and one PRINT_COMPLETE, sends the printer its
   * preamble then the chunks verbatim, and leaves the job reset.
   */
  lemma ExactTransfer(decode: Decoder, line: seq<byte>, cs: seq<seq<byte>>)
    requires decode(line).Doc? && decode(line).command.Some? && IsPrint(decode(line).command.value)
    requires ValidChunks(cs) && |cs| >= 1
    requires TotalLen(cs) == decode(line).imageSize.GetOr(0)
    ensures var ps := [Data(line)] + ChunkPolls(cs);
      && RunDefined(decode, ResetJob, ps)
      && var r := Run(decode, ResetJob, ps);
      && r.job == ResetJob
      && r.host == [Ready] + (Acks(|cs|) + [PrintComplete])
      && r.printer == JobPreamble(Classify(decode(line)).value) + Concat(cs)
  {
    var cmd := Classify(decode(line)).value;
    var start := Step(decode, ResetJob, Data(line));
    PrintStarts(decode, line);
    assert start.job == StartJob(cmd);
    StartedTransfer(decode, start.job, cs);
    var rest := Run(decode, start.job, ChunkPolls(cs));
    RunCons(decode, ResetJob, Data(line), ChunkPolls(cs));
    var ps := [Data(line)] + ChunkPolls(cs);
    assert Run(decode, ResetJob, ps) == Output(rest.job, [Ready] + rest.host, JobPreamble(cmd) + rest.printer);
  }

  /** An accepted "PRINT" line from the idle bridge starts the job its fields describe. */
  lemma PrintStarts(decode: Decoder, line: seq<byte>)
    requires decode(line).Doc? && decode(line).command.Some? && IsPrint(decode(line).command.value)
    ensures var cmd := Classify(decode(line)).value;
      && Defined(decode, ResetJob, Data(line))
      && Step(decode, ResetJob, Data(line)) == Output(StartJob(cmd), [Ready], JobPreamble(cmd))
      && cmd.imageSize == decode(line).imageSize.GetOr(0)
  {
  }

  /** A fresh job fed chunks that add up exactly to its size completes on the last one. */
  lemma StartedTransfer(decode: Decoder, job: PrintJob, cs: seq<seq<byte>>)
    requires job.inProgress && job.bytesReceived == 0 && job.imageSize == TotalLen(cs)
    requires ValidChunks(cs) && |cs| >= 1
    ensures RunDefined(decode, job, ChunkPolls(cs))
    ensures var r := Run(decode, job, ChunkPolls(cs));
      && r.job == ResetJob
      && r.host == Acks(|cs|) + [PrintComplete]
      && r.printer == Concat(cs)
  {
    var last := cs[|cs| - 1];
    assert cs == cs[..|cs| - 1] + [last];
    SplitChunks(cs[..|cs| - 1], [last]);
    assert TotalLen([last]) == |last|;
    assert NoEarlyCompletion(job, cs);
    ReceiveTrace(decode, job, cs);
  }

  /**
   * An example transfer: after "PRINT" with size 10 and width and
   * height 1, chunks of 4 and then 4 bytes leave the count at 4 and then 8.
   */
  lemma TenByteCounts(decode: Decoder, line: seq<byte>, c1: seq<byte>, c2: seq<byte>)
    requires decode(line) == Doc(Some("PRINT"), Some(10), Some(1), Some(1), None)
    requires |c1| == 4 && |c2| == 4
    ensures RunDefined(decode, ResetJob, [Data(line), Data(c1)])
    ensures RunDefined(decode, ResetJob, [Data(line), Data(c1), Data(c2)])
    ensures Run(decode, ResetJob, [Data(line), Data(c1)]).job.bytesReceived == 4
    ensures Run(decode, ResetJob, [Data(line), Data(c1), Data(c2)]).job.bytesReceived == 8
  {
    assert IsPrint("PRINT") by { IsPrintIff("PRINT"); }
    var j0 := PrintJob(10, 1, 1, true, 0);
    assert Step(decode, ResetJob, Data(line)).job == j0;
    var j1 := j0.(bytesReceived := 4);
    assert Step(decode, j0, Data(c1)).job == j1;
    assert Step(decode, j1, Data(c2)).job == j0.(bytesReceived := 8);
    RunCons(decode, j1, Data(c2), []);
    RunCons(decode, j0, Data(c1), [Data(c2)]);
    RunCons(decode, j0, Data(c1), []);
    RunCons(decode, ResetJob, Data(line), [Data(c1), Data(c2)]);
    RunCons(decode, ResetJob, Data(line), [Data(c1)]);
    assert [Data(line)] + [Data(c1), Data(c2)] == [Data(line), Data(c1), Data(c2)];
    assert [Data(line)] + [Data(c1)] == [Data(line), Data(c1)];
    assert [Data(c1)] + [Data(c2)] == [Data(c1), Data(c2)];
    assert [Data(c1)] + [] == [Data(c1)];
    assert [Data(c2)] + [] == [Data(c2)];
  }

  /**
   * An example transfer: "PRINT" with size 10 then chunks of 4,
   * 4 and 2 bytes answers READY, ACK, ACK, ACK, PRINT_COMPLETE.
   */
  lemma TenByteExample(decode: Decoder, line: seq<byte>, c1: seq<byte>, c2: seq<byte>, c3: seq<byte>)
    requires decode(line) == Doc(Some("PRINT"), Some(10), Some(1), Some(1), None)
    requires |c1| == 4 && |c2| == 4 && |c3| == 2
    ensures RunDefined(decode, ResetJob, [Data(line), Data(c1), Data(c2), Data(c3)])
    ensures Run(decode, ResetJob, [Data(line), Data(c1), Data(c2), Data(c3)]).host
      == [Ready, Ack, Ack, Ack, PrintComplete]
  {
    assert IsPrint("PRINT") by { IsPrintIff("PRINT"); }
    ThreeChunks(c1, c2, c3);
    ExactTransfer(decode, line, [c1, c2, c3]);
    assert [Data(line)] + [Data(c1), Data(c2), Data(c3)] == [Data(line), Data(c1), Data(c2), Data(c3)];
  }

  /** The chunk-list facts the example transfer relies on. */
  lemma ThreeChunks(c1: seq<byte>, c2: seq<byte>, c3: seq<byte>)
    requires |c1| == 4 && |c2| == 4 && |c3| == 2
    ensures ValidChunks([c1, c2, c3]) && TotalLen([c1, c2, c3]) == 10
    ensures ChunkPolls([c1, c2, c3]) == [Data(c1), Data(c2), Data(c3)]
    ensures Acks(3) + [PrintComplete] == [Ack, Ack, Ack, PrintComplete]
  {
    var cs := [c1, c2, c3];
    assert cs[1..] == [c2, c3] && cs[1..][1..] == [c3] && cs[1..][1..][1..] == [];
    assert [c2, c3][1..] == [c3] && [c3][1..] == [];
    assert TotalLen([c3]) == 2 && TotalLen([c2, c3]) == 6;
    assert ChunkPolls([c3]) == [Data(c3)];
    assert ChunkPolls([c2, c3]) == [Data(c2)] + [Data(c3)];
    assert ChunkPolls(cs) == [Data(c1)] + [Data(c2), Data(c3)];
    assert Acks(3) == [Ack, Ack, Ack];
  }
}
