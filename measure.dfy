/** Values shared by the render-rectangle aggregation and the metrics report:
    text as UTF-16 code units, the measurement result of the host canvas, and
    the code-unit lookup `charCodeAt` with its NaN for a missing position. */
module Measure {

  /** One UTF-16 code unit, as JavaScript strings store them. */
  newtype CodeUnit = x: int | 0 <= x < 0x1_0000

  /** A JavaScript string, as its sequence of UTF-16 code units. */
  type Text = seq<CodeUnit>

  /** The five fields of a canvas TextMetrics object that the kernel reads:
      fontBoundingBoxAscent/Descent, actualBoundingBoxAscent/Descent and width. */
  datatype Metrics = Metrics(
    fontAscent: real,
    fontDescent: real,
    actualAscent: real,
    actualDescent: real,
    width: real)

  /** Height of the font bounding box: ascent plus descent. */
  function FontHeight(m: Metrics): real {
    m.fontAscent + m.fontDescent
  }

  /** Height of the ink (actual) bounding box: ascent plus descent. */
  function ActualHeight(m: Metrics): real {
    m.actualAscent + m.actualDescent
  }

  /** What `charCodeAt` returns: a code unit, or NaN when the position is
      outside the string. */
  datatype CharCode = NaN | Unit(value: CodeUnit)

  /** `s.charCodeAt(i)`. */
  function CharCodeAt(s: Text, i: int): CharCode {
    if 0 <= i < |s| then Unit(s[i]) else NaN
  }

  /** `c <= bound` on a JavaScript number: every comparison with NaN is false. */
  predicate AtMost(c: CharCode, bound: int) {
    match c
    case NaN => false
    case Unit(u) => u as int <= bound
  }
}
