# Canvas text-metrics kernel

A model of the measurement kernel of the canvas text-metrics viewer
(`canvas/src/App.tsx`). Two pieces are modelled.

- **`calculateRenderRect`**: a left fold over a list of sample strings. It
  starts from `{height: 0, widthSingle: 0, widthDouble: 0}`. For every sample
  it measures the sample and raises `height` to the taller of the font box and
  the ink box. It then sorts the sample into a width class by its first UTF-16
  code unit: "single" when that unit is at most 0x7F, "double" otherwise. The
  empty string is "double", because `charCodeAt(0)` is NaN and `NaN <= 0x7F`
  is false. Only the width of the sample's own class is raised.
- **`stringifyTextMetrics`** and the metrics panel text. A measurement record
  is enumerated as an ordered list of `(name, value)` pairs. It becomes one
  `name: value` line per field. The panel adds `actualHeight` and `fontHeight`
  lines, which are the ink-box and font-box ascent plus descent.

Modules:

- `Measure` (`measure.dfy`): UTF-16 code units, the `Metrics` record, the
  two box heights, `charCodeAt` with its NaN result, and comparison with NaN.
- `RenderRects` (`render_rect.dfy`): the fold `CalculateRenderRect`, its
  step `Step`, and an independent specification. `IsEnvelope` says that each
  field is the exact maximum of 0 and the matching per-sample values, taken
  over the set of samples. The lemmas prove the fold meets it, then derive
  order independence and the other properties from it.
- `MetricsText` (`metrics_text.dfy`): the string-builder loop
  `StringifyTextMetrics`, proved equal to the recursive `Report`, plus the
  panel text and the properties of `Report`.

The canvas `measureText` call is the function parameter `measure`, bound to
the current font. JavaScript's number-to-text conversion is the function
parameter `show`. `DecimalText` is one concrete `show` for integer values.

Sample strings are `Text`, sequences of UTF-16 code units, because the
classification reads a code unit. Report text is Dafny's `string`; field names,
the `: ` separator and decimal digits are all ASCII, where a code unit and a
character coincide, so the two representations never need converting.

## Model

| member | source | states |
|---|---|---|
| `RenderRects.Step` | canvas/src/App.tsx:157-179 | one reduce step never lowers any accumulator; the new height is at least the sample's height and is either the old height or the sample's; the sample's class width is at least its advance width and is either the old width or the sample's; the other class's width is unchanged when it is non-negative |
| `RenderRects.Fold` | canvas/src/App.tsx:157-184 | folding any list of samples never lowers any field of the starting accumulator |
| `RenderRects.CalculateRenderRect` | canvas/src/App.tsx:153-185 | all three fields are at least 0 for every measurer and sample list; an empty sample list gives exactly `{0, 0, 0}` |
| `RenderRects.FoldIsEnvelope` | canvas/src/App.tsx:157-184 | from an accumulator with non-negative widths, the fold gives per field the maximum of the accumulator's value and the matching sample values: the heights, the widths of single samples, the widths of double samples |
| `RenderRects.CalculateRenderRectIsEnvelope` | canvas/src/App.tsx:153-185 | `height` is the maximum of 0 and every sample's max(font box, ink box) height; `widthSingle` is the maximum of 0 and the widths of single-width samples; `widthDouble` likewise for double-width samples. Each is an upper bound and is attained or 0 |
| `RenderRects.AbsentClassIsZero` | canvas/src/App.tsx:167-184 | a width class with no sample in the list stays at 0 |
| `RenderRects.ClassificationBoundary` | canvas/src/App.tsx:164-166 | a sample is single-width exactly when it is non-empty and its first code unit is at most 0x7F; a leading 0x7F is single, a leading 0x80 is double, the empty sample is double |
| `RenderRects.DefaultSamplesClassified` | canvas/src/App.tsx:71 | of the application's samples "A", "m", "あ", "い", "👪", "🆙", exactly the first two are single-width |
| `RenderRects.FoldAppend` | canvas/src/App.tsx:157-184 | reducing a concatenation equals reducing the second part from the result of the first |
| `RenderRects.AppendSample` | canvas/src/App.tsx:157-179 | appending a sample never lowers any field; a double-width sample leaves `widthSingle` unchanged and a single-width one leaves `widthDouble` unchanged |
| `RenderRects.OrderIndependent` | canvas/src/App.tsx:157-184 | any permutation of the sample list gives the same RenderRect |
| `RenderRects.DuplicateSampleIgnored` | canvas/src/App.tsx:157-184 | appending a sample already in the list changes nothing |
| `RenderRects.ExampleRenderRect` | canvas/src/App.tsx:153-185 | for `["A", "あ"]` with font/ink boxes 10+2, 8+1 (width 12) and 14+3, 12+2 (width 20), the result is `{height: 17, widthSingle: 12, widthDouble: 20}` |
| `MetricsText.StringifyTextMetrics` | canvas/src/App.tsx:139-145 | the loop's result is the in-order concatenation `Report` of one `key: value\n` line per field |
| `MetricsText.ReportEmpty` | canvas/src/App.tsx:140-144 | a record with no fields gives `""` |
| `MetricsText.ReportAppend` | canvas/src/App.tsx:139-145 | the report of two records one after the other is the concatenation of their reports |
| `MetricsText.ReportSplit` | canvas/src/App.tsx:139-145 | the report is the lines of the fields before field `i`, then field `i`'s line, then the lines of the fields after it |
| `MetricsText.ReportLineCount` | canvas/src/App.tsx:139-145 | when no name and no printed value contains a newline, the report has exactly one newline per field |
| `MetricsText.ReportExample` | canvas/src/App.tsx:139-145 | the record `{a: 1, b: 2}` prints as `"a: 1\nb: 2\n"` |
| `MetricsText.MetricsPanelText` | canvas/src/App.tsx:69 | the panel text is the report of the record extended with `actualHeight` (ink ascent + descent, line 53) and `fontHeight` (font ascent + descent, line 54) |
| `MetricsText.DecimalRoundTrip` | canvas/src/App.tsx:142 | the decimal text of an integer is a well-formed signed digit string that reads back as the same integer |

## Left out

- The `App` component's signals, effect and form controls (lines 6-137): reactive UI wiring, nothing to state.
- Canvas drawing (`clearRect`, `strokeRect`, `fillText`, paths, styles): side effects on the host surface.
- The "failed to get context" start-up error (lines 37-39): host initialisation.
- `canvas/src/index.tsx`: application bootstrap and an asynchronous font load that only logs.
- The real `measureText` and font shaping: replaced by the parameter `measure`. Measuring once per sample in list order is the fold's order; the model does not record the calls.
- Numbers are `real`: IEEE-754 rounding, NaN propagation through `Math.max` and NaN metrics are not modelled.
- Number-to-text conversion is the parameter `show`; `DecimalText` covers integers only, not fractions or exponent notation.
- `for…in` enumeration over a host `TextMetrics` object: the record is given as its explicit ordered list of fields. `MetricsPanelText` takes that list and the five-field `Metrics` separately; that both come from one measurement is the caller's side.
- Strings are given as their UTF-16 code units; the conversion from source text is not modelled.
- `Step`: the other class's width is maxed with 0, as at lines 167-174; `Step` proves this leaves it unchanged whenever it is non-negative, which always holds inside the fold.
