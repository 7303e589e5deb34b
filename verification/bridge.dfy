/**
 * The job state machine of the printer bridge: one poll of the firmware's
 * main loop as a pure function of the current job and what the poll reads.
 */
module Bridge {
  import opened Options
  import opened Bytes
  import opened Command
  import opened Printer

  /** Capacity of the receive buffer: the most payload bytes one poll forwards. */
  const BufferSize: nat := 256

  /** The single print job the bridge owns. Idle exactly when `inProgress` is false. */
  datatype PrintJob = PrintJob(imageSize: int, width: int, height: int, inProgress: bool, bytesReceived: int)

  /** The job after a reset: every field zero or false. */
  const ResetJob: PrintJob := PrintJob(0, 0, 0, false, 0)

  /** The status lines the bridge sends back to the host. */
  datatype Token = BridgeReady | Ready | Ack | PrintComplete | ErrorInvalidJson | ErrorUnknownCommand

  /** The text of each status line, without its line terminator. */
  function TokenText(t: Token): string {
    match t
    case BridgeReady => "Arduino Printer Bridge Ready"
    case Ready => "READY"
    case Ack => "ACK"
    case PrintComplete => "PRINT_COMPLETE"
    case ErrorInvalidJson => "ERROR_INVALID_JSON"
    case ErrorUnknownCommand => "ERROR_UNKNOWN_COMMAND"
  }

  /** Distinct tokens are distinct lines, so the host can tell every status apart. */
  lemma TokenTextInjective(s: Token, t: Token)
    ensures TokenText(s) == TokenText(t) <==> s == t
  {
  }

  /**
   * What one pass of the main loop sees: nothing available, or the bytes it
   * consumes. While idle those bytes are the line read up to (not including)
   * the newline; while receiving they are the chunk read into the buffer.
   */
  datatype Poll = Quiet | Data(bytes: seq<byte>)

  /** The effect of one or more polls: the resulting job, the lines sent to the host, the bytes sent to the printer. */
  datatype Output = Output(job: PrintJob, host: seq<Token>, printer: seq<byte>)

  /** The bridge's invariant: an idle job is the reset job; a running one has not yet completed unless nothing arrived. */
  predicate Inv(job: PrintJob) {
    if job.inProgress then
      0 <= job.bytesReceived && (job.bytesReceived == 0 || job.bytesReceived < job.imageSize)
    else
      job == ResetJob
  }

  /** Under the invariant a job never holds more bytes than it declared, provided its declared size is not negative. */
  lemma InvBound(job: PrintJob)
    requires Inv(job) && job.imageSize >= 0
    ensures 0 <= job.bytesReceived <= job.imageSize
  {
  }

  /**
   * A negative declared size is the one way past that bound: every job
   * started from a document with a negative size already holds more bytes
   * (none) than it declared.
   */
  lemma NegativeSizeExceedsBound(c: PrintCommand)
    requires c.imageSize < 0
    ensures Inv(StartJob(c)) && StartJob(c).bytesReceived > StartJob(c).imageSize
  {
  }

  /**
   * The firmware's behaviour is defined for this poll: a chunk holds between
   * one byte (data was available) and a buffer's worth, and a line that
   * decodes to a document names its command.
   */
  predicate Defined(decode: Decoder, job: PrintJob, p: Poll) {
    p.Data? ==>
      if job.inProgress then 1 <= |p.bytes| <= BufferSize
      else CommandKnown(decode(p.bytes))
  }

  /** State after power-up: the job is reset and the banner line is sent. */
  function Setup(): (r: Output)
    ensures Inv(r.job) && !r.job.inProgress
    ensures r.job.imageSize == 0 && r.job.width == 0 && r.job.height == 0 && r.job.bytesReceived == 0
    ensures r.printer == [] && r.host == [BridgeReady]
  {
    Output(ResetJob, [BridgeReady], [])
  }

  /** The job a `PRINT` command starts: in progress with nothing received yet. */
  function StartJob(c: PrintCommand): (j: PrintJob)
    ensures Inv(j) && j.inProgress && j.bytesReceived == 0
  {
    PrintJob(c.imageSize, c.width, c.height, true, 0)
  }

  /** An idle poll that read a line: decode it and act on the command. */
  function ProcessCommand(job: PrintJob, parsed: ParseResult): (r: Output)
    requires CommandKnown(parsed)
    ensures |r.host| == 1 && Ack !in r.host && PrintComplete !in r.host
    ensures r.host == [Ready] <==> parsed.Doc? && IsPrint(parsed.command.value)
    ensures r.host == [Ready] ==> r.job.inProgress && r.job.bytesReceived == 0 && InitSequence <= r.printer
    ensures r.host != [Ready] ==> r.job == job && r.printer == []
  {
    match Classify(parsed)
    case Failure(InvalidJson) => Output(job, [ErrorInvalidJson], [])
    case Failure(UnknownCommand) => Output(job, [ErrorUnknownCommand], [])
    case Success(c) => Output(StartJob(c), [Ready], JobPreamble(c))
  }

  /** A receiving poll: forward the chunk, count it, acknowledge it, and finish the job once enough has arrived. */
  function Receive(job: PrintJob, chunk: seq<byte>): (r: Output)
    requires 1 <= |chunk| <= BufferSize
    ensures r.printer == chunk && |r.host| >= 1 && r.host[0] == Ack
    ensures PrintComplete in r.host <==> job.bytesReceived + |chunk| >= job.imageSize
    ensures PrintComplete in r.host ==> r.job == ResetJob && |r.host| == 2
    ensures PrintComplete !in r.host ==>
      r.host == [Ack] && r.job.bytesReceived == job.bytesReceived + |chunk| && r.job.imageSize == job.imageSize
  {
    var received := job.bytesReceived + |chunk|;
    if received >= job.imageSize then Output(ResetJob, [Ack, PrintComplete], chunk)
    else Output(job.(bytesReceived := received), [Ack], chunk)
  }

  /** One pass of the main loop. */
  function Step(decode: Decoder, job: PrintJob, p: Poll): (r: Output)
    requires Defined(decode, job, p)
    ensures |r.host| <= 2
    ensures Inv(job) ==> Inv(r.job)
  {
    match p
    case Quiet => Output(job, [], [])
    case Data(bytes) =>
      if job.inProgress then Receive(job, bytes) else ProcessCommand(job, decode(bytes))
  }

  /**
   * What every poll guarantees: it keeps the bridge invariant, does nothing
   * when no data is available, never answers ACK or PRINT_COMPLETE while
   * idle, and while receiving answers no READY or error, starts with ACK and
   * forwards exactly the bytes it read.
   */
  lemma StepFacts(decode: Decoder, job: PrintJob, p: Poll)
    requires Defined(decode, job, p)
    ensures var r := Step(decode, job, p);
      && (Inv(job) ==> Inv(r.job))
      && (p.Quiet? ==> r == Output(job, [], []))
      && (!job.inProgress ==> Ack !in r.host && PrintComplete !in r.host)
      && (job.inProgress ==> Ready !in r.host && ErrorInvalidJson !in r.host && ErrorUnknownCommand !in r.host)
      && (job.inProgress && p.Data? ==> |r.host| >= 1 && r.host[0] == Ack && r.printer == p.bytes)
  {
  }

  /** A line that fails to deserialize is answered with ERROR_INVALID_JSON alone, and nothing else changes. */
  lemma InvalidJsonRejected(decode: Decoder, job: PrintJob, line: seq<byte>)
    requires !job.inProgress && decode(line).Rejected?
    ensures Step(decode, job, Data(line)) == Output(job, [ErrorInvalidJson], [])
  {
  }

  /** A command other than "PRINT" is answered with ERROR_UNKNOWN_COMMAND alone, and nothing else changes. */
  lemma UnknownCommandRejected(decode: Decoder, job: PrintJob, line: seq<byte>)
    requires !job.inProgress && decode(line).Doc?
    requires decode(line).command.Some? && !IsPrint(decode(line).command.value)
    ensures Step(decode, job, Data(line)) == Output(job, [ErrorUnknownCommand], [])
  {
  }

  /**
   * An accepted "PRINT" starts a job with the document's dimensions (0 when
   * absent), writes the printer initialisation and, if present, the density
   * setting, and answers READY alone.
   */
  lemma PrintAccepted(decode: Decoder, job: PrintJob, line: seq<byte>)
    requires !job.inProgress && decode(line).Doc?
    requires decode(line).command.Some? && IsPrint(decode(line).command.value)
    ensures var doc := decode(line);
            var r := Step(decode, job, Data(line));
      && r.job == PrintJob(doc.imageSize.GetOr(0), doc.width.GetOr(0), doc.height.GetOr(0), true, 0)
      && r.host == [Ready]
      && r.printer == [27, 64, 27, 33, 0] + (if doc.density.Some? then [27, 55, (doc.density.value % 256) as byte] else [])
  {
  }

  /**
   * A receiving poll forwards exactly the chunk, adds its length to the
   * count, and answers ACK; it also answers PRINT_COMPLETE and resets the job
   * exactly when the count reaches the declared size, even if the chunk
   * overshoots it.
   */
  lemma ChunkForwarded(decode: Decoder, job: PrintJob, chunk: seq<byte>)
    requires job.inProgress && 1 <= |chunk| <= BufferSize
    ensures var r := Step(decode, job, Data(chunk));
            var received := job.bytesReceived + |chunk|;
      && r.printer == chunk
      && (received >= job.imageSize ==> r.host == [Ack, PrintComplete] && r.job == ResetJob)
      && (received < job.imageSize ==> r.host == [Ack] && r.job == job.(bytesReceived := received))
  {
  }

  /** While a job is in progress the decoder is never consulted: any two decoders give the same poll. */
  lemma ReceivingIgnoresDecoder(d1: Decoder, d2: Decoder, job: PrintJob, p: Poll)
    requires job.inProgress && Defined(d1, job, p)
    ensures Defined(d2, job, p)
    ensures Step(d1, job, p) == Step(d2, job, p)
  {
  }

  /**
   * A "PRINT" line without an image size starts a zero-size job, so the very
   * next chunk, whatever it holds, goes to the printer and completes the job.
   */
  lemma MissingSizeTakesNextChunk(decode: Decoder, line: seq<byte>, chunk: seq<byte>)
    requires decode(line).Doc? && decode(line).command.Some? && IsPrint(decode(line).command.value)
    requires decode(line).imageSize.None?
    requires 1 <= |chunk| <= BufferSize
    ensures var r1 := Step(decode, ResetJob, Data(line));
      && r1.job.inProgress && r1.job.imageSize == 0
      && Step(decode, r1.job, Data(chunk)) == Output(ResetJob, [Ack, PrintComplete], chunk)
  {
  }
}
