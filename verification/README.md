# Printer bridge protocol, modelled in Dafny

This project models the firmware of an Arduino "printer bridge" (`main3.py`, which
is Arduino C++ despite its extension). The bridge sits between a host (a Raspberry
Pi) and a serial thermal printer. It runs a two-state, poll-driven protocol:

- **Idle.** Each poll reads one line from the host and decodes it as a JSON command.
  - A line that fails to deserialize is answered `ERROR_INVALID_JSON`.
  - A command other than `"PRINT"` is answered `ERROR_UNKNOWN_COMMAND`.
  - `"PRINT"` starts a job. The bridge records `image_size`, `width` and `height`
    (absent keys read as 0). It sends the printer `ESC @`, `ESC ! 0` and, if the
    command carries a `density`, `ESC 7 n`. It then answers `READY`.
- **Receiving.** Each poll reads up to 256 bytes and forwards them verbatim to the
  printer. It adds their count to `bytesReceived` and answers `ACK`. Once
  `bytesReceived >= imageSize` it also answers `PRINT_COMPLETE` and resets the job.

The model is functional:

- `Bridge.Step` is one pass of the main loop, a pure function from the current
  `PrintJob` and the poll's input to the next job, the status lines sent to the
  host and the bytes sent to the printer.
- `Trace.Run` folds `Step` over a sequence of polls.
- `Firmware.RunBridge` is the same loop written imperatively, proved equal to
  the fold.
- The JSON deserializer is a parameter of type `Command.Decoder`. It is never
  interpreted, so every property holds for every decoder.

Modules, in dependency order:

- `Options`: optional values and results.
- `Bytes`: the byte type and chunk lists.
- `Command`: the command codec.
- `Printer`: the ESC/POS sequences.
- `Bridge`: the job state machine.
- `Trace`: multi-poll runs.
- `Firmware`: the loop.

Some of the firmware's behaviour may surprise a reader. The model follows it
literally:

- **Completion test.** A job completes when the count reaches *or passes* the
  declared size. An oversized last chunk is forwarded in full.
- **Missing numeric fields.** A `PRINT` without them is accepted, with the fields
  read as 0. It is not rejected as invalid.
- **Settings.** The only setting is `density`.
- **Invariant.** `Bridge.Inv` states what holds between polls: an idle job is the reset
  job, and a running job has either received nothing yet or less than its declared size.
  An overshooting chunk resets the job on the same poll, so a running job with a
  non-negative declared size never holds more than its size. `Bridge.InvBound` states `bytesReceived <= imageSize` for every
  non-negative declared size. The bound fails only for a negative `image_size`: every job
  `Bridge.StartJob` starts from such a document holds 0 bytes, which is more than its size (`Bridge.NegativeSizeExceedsBound`).

## Model

| member | source | states |
|---|---|---|
| `Command.Classify` | main3.py:81-109 | A deserialization error is exactly the invalid-JSON case. A command failing the `"PRINT"` comparison is exactly the unknown-command case. Otherwise the command is accepted with each numeric field equal to the document's value, or 0 when absent, and the density passed through. |
| `Command.CString` | main3.py:89-90 | The string `strcmp` compares is the longest NUL-free prefix of the command: it has no NUL and stops at a NUL or at the end. |
| `Command.IsPrintIff` | main3.py:90 | The `"PRINT"` comparison accepts exactly `"PRINT"` and strings that continue `"PRINT"` with a NUL. |
| `Printer.DensitySequence` | main3.py:142-146 | The density setting is `ESC 7` followed by one byte congruent to the density modulo 256. |
| `Printer.DensityLowByte` | main3.py:143-146 | A density in 0..255 is sent unchanged. Densities that differ by a multiple of 256 produce the same bytes. |
| `Printer.JobPreamble` | main3.py:120-148 | An accepted job first sends the init sequence `27 64 27 33 0`. That is all when there is no density. With a density, exactly the three density bytes follow. The density bytes are `Printer.SettingsSequence`, which stands for `applyPrinterSettings` (main3.py:137-148). |
| `Bridge.TokenTextInjective` | main3.py:41-108 | The six status lines are pairwise distinct, so each token is recognisable on the wire. |
| `Bridge.Setup` | main3.py:28-42 | After power-up every job field is zero or false, the bridge is idle and satisfies its invariant, and the banner is the only line sent. The reset job is `Bridge.ResetJob`, which stands for `resetPrintJob` (main3.py:112-118). |
| `Bridge.StartJob` | main3.py:92-96 | The job an accepted command starts is in progress with nothing received and satisfies the bridge invariant. `Bridge.PrintAccepted` states its field values. |
| `Bridge.ProcessCommand` | main3.py:78-110 | An idle line is answered with exactly one status line, never `ACK` or `PRINT_COMPLETE`. The answer is `READY` exactly when the line decodes to a `"PRINT"` command. Then the job is in progress from zero and the printer gets the init sequence first. Otherwise the job is unchanged and the printer gets nothing. `Bridge.InvalidJsonRejected`, `Bridge.UnknownCommandRejected` and `Bridge.PrintAccepted` give each branch exactly. |
| `Bridge.Receive` | main3.py:52-74 | A receiving poll forwards exactly its chunk and answers `ACK` first. It answers `PRINT_COMPLETE` exactly when the count plus the chunk reaches or passes the size, and then resets the job. Otherwise it answers `ACK` alone and raises the count by the chunk's length. `Bridge.ChunkForwarded` restates this at the level of `Step`. |
| `Bridge.Step` | main3.py:44-76 | One pass of the loop sends at most two status lines and keeps the bridge invariant. `Bridge.StepFacts` and `Bridge.ReceivingIgnoresDecoder` carry its other guarantees. |
| `Trace.Run` | main3.py:44-76 | Repeated passes of the loop send at most two status lines per poll. `Trace.RunPreservesInv`, `Trace.AcksCountForwards` and `Trace.ReceiveTrace` state what a run does. |
| `Bridge.InvBound` | main3.py:63-73 | Under the bridge invariant, a job with a non-negative declared size never holds more bytes than that size, because the completing poll resets it. |
| `Bridge.NegativeSizeExceedsBound` | main3.py:92-96 | Every job started from a document with a negative `image_size` satisfies the invariant yet holds more bytes (0) than its declared size. |
| `Bridge.StepFacts` | main3.py:44-76 | One poll preserves the bridge invariant and does nothing when no data is available. It never answers ACK or PRINT_COMPLETE while idle. While receiving it never answers READY or an error, always answers ACK first, and forwards exactly the bytes read. |
| `Bridge.InvalidJsonRejected` | main3.py:81-86 | An idle line that fails to deserialize yields exactly `ERROR_INVALID_JSON`, no printer bytes, and an unchanged job. |
| `Bridge.UnknownCommandRejected` | main3.py:88-109 | An idle command other than `"PRINT"` yields exactly `ERROR_UNKNOWN_COMMAND`, no printer bytes, and an unchanged job. |
| `Bridge.PrintAccepted` | main3.py:90-105 | An accepted `"PRINT"` puts the job in progress with zero received and the document's dimensions (0 when absent). It writes `27 64 27 33 0`, then `27 55 density%256` only if a density is present, and answers exactly `READY`. |
| `Bridge.ChunkForwarded` | main3.py:53-73 | A receiving poll forwards its chunk unchanged and adds the chunk's length to the count. It answers `ACK`, then `PRINT_COMPLETE` and a reset job exactly when the new count reaches or passes the size, overshoot included. |
| `Bridge.ReceivingIgnoresDecoder` | main3.py:46-51 | While a job is in progress, the poll's outcome is the same under any two decoders: incoming data never reaches the command decoder. |
| `Bridge.MissingSizeTakesNextChunk` | main3.py:92-96 | A `"PRINT"` without `image_size` starts a job of size 0. Whatever the next poll reads is then forwarded to the printer and completes that job at once. |
| `Trace.RunPreservesInv` | main3.py:44-76 | Every run of the main loop from a state satisfying the bridge invariant ends in one. |
| `Trace.AcksCountForwards` | main3.py:57-66 | In every run the number of `ACK`s equals the number of polls that found data while a job was in progress. |
| `Trace.TransferTokenCounts` | main3.py:66-71 | A transfer's status lines hold `ACK` once per chunk, `PRINT_COMPLETE` exactly once and no `READY`. |
| `Trace.ReceiveTrace` | main3.py:53-73 | Chunks of 1..256 bytes fed to a running job, none completing it before the last, do three things. The printer receives their concatenation. The host receives one `ACK` per chunk, then `PRINT_COMPLETE` exactly when the total reaches the size. The job is reset in that case and otherwise holds the new total. The printer receives exactly as many bytes as the chunks hold. |
| `Trace.FirstCompletion` | main3.py:63-69 | This is the index of the chunk on which the received count first reaches the size: the count reaches it there and at no earlier chunk. |
| `Trace.CompletionTrace` | main3.py:57-73 | Feeding a running job chunks up to the first that reaches its size gives one `ACK` per chunk and exactly one `PRINT_COMPLETE`. It forwards exactly those chunks, concatenated, and leaves the bridge idle. |
| `Trace.PrintStarts` | main3.py:90-105 | From the idle bridge an accepted `"PRINT"` line starts the job its command describes, sends the job's preamble and answers `READY`. |
| `Trace.StartedTransfer` | main3.py:57-73 | A fresh job fed chunks whose lengths add up exactly to its size completes on the last chunk. It forwards all of them and ends reset. |
| `Trace.ExactTransfer` | main3.py:44-110 | From idle, a `"PRINT"` line then chunks summing exactly to the size produce `READY`, one `ACK` per chunk and one `PRINT_COMPLETE`. The printer gets the preamble followed by the chunks verbatim, and the job ends reset. |
| `Trace.TenByteCounts` | main3.py:57-69 | After `PRINT` of size 10, chunks of 4 and then 4 bytes leave the received count at 4 and then 8. |
| `Trace.TenByteExample` | main3.py:44-110 | `PRINT` of size 10, then chunks of 4, 4 and 2 bytes, gives exactly the lines `READY ACK ACK ACK PRINT_COMPLETE`. |
| `Firmware.RunBridge` | main3.py:28-76 | Running `setup` and then the main loop over any defined sequence of polls yields the banner followed by exactly the functional run's output. The job ends in the functional run's state and satisfies the invariant. |

## Left out

- The host-side scripts `main2.py` and `main4.py` (camera capture, the vision-model call, credentials, the serial write) are not part of this model. They are I/O glue with no protocol logic.
- JSON deserialization is not modelled. `Command.Decoder` is an arbitrary function from the line's bytes to a `ParseResult`. `Rejected` stands for every deserialization error. A field's value is whatever the library converts it to.
- A document with no string `command` makes the firmware pass a null pointer to `strcmp`, which is undefined behaviour. `Bridge.Defined` excludes that input rather than inventing a result.
- Serial hardware is not modelled: baud rates, `delay`, read timeouts and the busy-poll timing. How the host's bytes are split across polls is a free choice of the environment. A poll is `Quiet`, or `Data` holding the line or chunk it consumed. A chunk is 1 to 256 bytes, because data was available and the buffer holds 256.
- Integer widths are not modelled. On the target, `imageSize` and `bytesReceived` are 32-bit `long` and `width` and `height` are 16-bit `int`. The model uses unbounded integers and assumes no overflow. The density's one-byte truncation is modelled, since it is visible on the wire.
- The init sequence's final `printerSerial.write(0)` is modelled as the single byte 0 it is evidently meant to send. With `SoftwareSerial` the literal 0 may be an ambiguous overload, `uint8_t` against `const char*`. The model does not decide how a compiler resolves it.
- The startup banner is modelled only as the first status line, `BridgeReady`. The delays around it are not modelled.
