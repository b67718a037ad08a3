/** The arithmetic one-liners of lib/utils.ts (unit conversions and `clamp`),
    and `Math.round`. Kept apart from the value codec of the same file because the
    colour codec needs `clamp` while the value codec needs the colour codec. */
module Numbers {

  /** `secondsToMilliseconds`. */
  function SecondsToMilliseconds(seconds: real): (ms: real)
    ensures MillisecondsToSeconds(ms) == seconds
  {
    seconds * 1000.0
  }

  /** `millisecondsToSeconds`. */
  function MillisecondsToSeconds(ms: real): (seconds: real)
    ensures seconds * 1000.0 == ms
  {
    ms / 1000.0
  }

  /** The two unit conversions undo each other. */
  lemma ConversionsInverse(seconds: real, ms: real)
    ensures MillisecondsToSeconds(SecondsToMilliseconds(seconds)) == seconds
    ensures SecondsToMilliseconds(MillisecondsToSeconds(ms)) == ms
  {
  }

  /** `Math.min(Math.max(value, min), max)`. */
  function Clamp(value: real, min: real, max: real): (r: real)
    ensures min <= max ==> min <= r <= max
    ensures min <= value <= max ==> r == value
    ensures r == value || r == min || r == max
  {
    var atLeastMin := if value < min then min else value;
    if max < atLeastMin then max else atLeastMin
  }

  /** `Math.round`: the nearest integer, halves rounded up. */
  function Round(x: real): (n: int)
    ensures x - 0.5 < n as real <= x + 0.5
  {
    (x + 0.5).Floor
  }

  /** Rounding commutes with adding an integer. */
  lemma RoundShift(x: real, k: int)
    ensures Round(x + k as real) == Round(x) + k
  {
  }
}
