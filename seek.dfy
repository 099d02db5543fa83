/**
 * Seek reconciliation: the slider value to millisecond mapping of
 * set_position, the mismatch test that triggers a buffer reset, and the
 * engine's constants.
 */
module Seek {

  /** The seek slider's range is 0..SliderMax. */
  const SliderMax: int := 1000
  /** A reported position further than this from the seek target counts as a stall. */
  const SeekToleranceMs: int := 100
  /** The delay timer interval armed after a buffer reset. */
  const ResetDelayMs: int := 1000
  /** Queue settings of the buffering pipeline: unlimited buffers, 5 MB. */
  const QueueMaxSizeBuffers: int := 0
  const QueueMaxSizeBytes: int := 5000000

  /**
   * The seek target for slider value `v`: `v * duration / 1000` rounded
   * down when the duration is known (positive), and 0 otherwise.
   */
  function SeekTarget(v: int, duration: int): (t: int)
    requires 0 <= v
    ensures duration <= 0 ==> t == 0
    ensures duration > 0 ==> t * SliderMax <= v * duration < (t + 1) * SliderMax
  {
    if duration > 0 then (v * duration) / SliderMax else 0
  }

  /**
   * Within the slider's range the target lies in [0, duration]; the ends of
   * the slider map exactly to 0 and to the duration.
   */
  lemma SeekTargetRange(v: int, duration: int)
    requires 0 <= v <= SliderMax
    ensures 0 <= SeekTarget(v, duration) <= if duration > 0 then duration else 0
    ensures SeekTarget(0, duration) == 0
    ensures SeekTarget(SliderMax, duration) == if duration > 0 then duration else 0
  {
  }

  /** A larger slider value never seeks earlier. */
  lemma SeekTargetMonotone(v1: int, v2: int, duration: int)
    requires 0 <= v1 <= v2
    ensures SeekTarget(v1, duration) <= SeekTarget(v2, duration)
  {
  }

  /** set_position's stall test: the reported position is more than 100 ms off. */
  predicate Mismatch(reported: int, target: int)
  {
    reported - target > SeekToleranceMs || target - reported > SeekToleranceMs
  }
}
