/** Geometry of the REAC frame. */
module Reac {
  const FRAME_BYTES := 1492
  const HEADER_LEN := 50
  const COUNTER_OFF := 14
  const MAX_CHANNELS := 40
  const SAMPLES_PER_PKT := 12
  const RESOLUTION := 3
  const END_MARKER_0 := 0xC2
  const END_MARKER_1 := 0xEA

  /** `struct reac_mode` */
  datatype Mode = Mode(sampleRate: nat, nch: nat, sps: nat)
  {
    /** The audio of one packet fits between header and end of frame. */
    ghost predicate Fits()
    {
      1 <= nch <= MAX_CHANNELS && 1 <= sps <= 24 && nch * sps * RESOLUTION <= FRAME_BYTES - HEADER_LEN
    }
  }

  datatype Option<+T> = None | Some(value: T)
}
