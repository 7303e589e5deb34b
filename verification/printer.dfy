/** The peripheral driver: the ESC/POS byte sequences sent to the thermal printer. */
module Printer {
  import opened Options
  import opened Bytes
  import opened Command

  /** The ESC control byte. */
  const ESC: byte := 27

  /** Wake-up (`ESC @`) followed by normal print mode (`ESC ! 0`). */
  const InitSequence: seq<byte> := [ESC, 64, ESC, 33, 0]

  /**
   * The print-density setting `ESC 7 n`. The firmware passes an `int` to a
   * one-byte write, so only the low-order byte of the density survives.
   */
  function DensitySequence(density: int): (r: seq<byte>)
    ensures |r| == 3 && r[0] == ESC && r[1] == 55
    ensures (r[2] as int - density) % 256 == 0
  {
    [ESC, 55, (density % 256) as byte]
  }

  /** A density in byte range is sent unchanged, and densities 256 apart are indistinguishable. */
  lemma DensityLowByte(d: int, e: int)
    ensures 0 <= d < 256 ==> DensitySequence(d)[2] as int == d
    ensures (d - e) % 256 == 0 ==> DensitySequence(d) == DensitySequence(e)
  {
  }

  /** The bytes for the settings a command carries: a density sequence only when `density` is present. */
  function SettingsSequence(density: Option<int>): seq<byte> {
    match density
    case None => []
    case Some(d) => DensitySequence(d)
  }

  /** Everything written to the printer when a job is accepted, before any payload. */
  function JobPreamble(c: PrintCommand): (r: seq<byte>)
    ensures InitSequence <= r
    ensures c.density.None? ==> r == InitSequence
    ensures c.density.Some? ==> |r| == 8 && r[5..] == DensitySequence(c.density.value)
  {
    InitSequence + SettingsSequence(c.density)
  }
}
