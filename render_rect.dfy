/** `calculateRenderRect`: a left fold over sample strings that keeps the
    largest height seen and the largest advance width seen per width class
    ("single" for a leading ASCII code unit, "double" otherwise). The canvas
    `measureText` call is the parameter `measure`, bound to the current font. */
module RenderRects {
  import opened Measure

  /** The aggregated envelope: maximum height, and maximum advance width of
      single-width and of double-width samples. */
  datatype RenderRect = RenderRect(height: real, widthSingle: real, widthDouble: real)

  /** The fold's starting value. */
  const Zero := RenderRect(0.0, 0.0, 0.0)

  /** `Math.max` of two numbers (no NaN among reals). */
  function Max(a: real, b: real): real {
    if a < b then b else a
  }

  /** Height a sample asks for: the taller of its font box and its ink box. */
  function SampleHeight(m: Metrics): real {
    Max(FontHeight(m), ActualHeight(m))
  }

  /** `targetCh.charCodeAt(0) <= 0x7F`: a sample is single-width when its first
      UTF-16 code unit is ASCII. The empty sample yields NaN and is double-width. */
  predicate IsSingle(sample: Text) {
    AtMost(CharCodeAt(sample, 0), 0x7F)
  }

  /** One step of the reduce callback: measure the sample, raise the height,
      and raise the width of the sample's class; the other class is maxed with 0. */
  function Step(measure: Text -> Metrics, prev: RenderRect, sample: Text): (r: RenderRect)
    // no accumulator ever decreases
    ensures r.height >= prev.height && r.widthSingle >= prev.widthSingle && r.widthDouble >= prev.widthDouble
    // the new height is the old one or the sample's own
    ensures r.height >= SampleHeight(measure(sample))
    ensures r.height == prev.height || r.height == SampleHeight(measure(sample))
    // the sample's class takes its width into account ...
    ensures IsSingle(sample) ==> r.widthSingle >= measure(sample).width
    ensures !IsSingle(sample) ==> r.widthDouble >= measure(sample).width
    ensures IsSingle(sample) ==> r.widthSingle == prev.widthSingle || r.widthSingle == measure(sample).width
    ensures !IsSingle(sample) ==> r.widthDouble == prev.widthDouble || r.widthDouble == measure(sample).width
    // ... and the other class is left as it was, once it is non-negative
    ensures IsSingle(sample) && prev.widthDouble >= 0.0 ==> r.widthDouble == prev.widthDouble
    ensures !IsSingle(sample) && prev.widthSingle >= 0.0 ==> r.widthSingle == prev.widthSingle
  {
    var m := measure(sample);
    var single := IsSingle(sample);
    RenderRect(
      Max(Max(prev.height, FontHeight(m)), ActualHeight(m)),
      Max(prev.widthSingle, if single then m.width else 0.0),
      Max(prev.widthDouble, if single then 0.0 else m.width))
  }

  /** `samples.reduce(Step, acc)`, measuring the samples in order. */
  function Fold(measure: Text -> Metrics, acc: RenderRect, samples: seq<Text>): (r: RenderRect)
    ensures r.height >= acc.height && r.widthSingle >= acc.widthSingle && r.widthDouble >= acc.widthDouble
    decreases |samples|
  {
    if samples == [] then acc
    else Fold(measure, Step(measure, acc, samples[0]), samples[1..])
  }

  /** `calculateRenderRect(ctx, sampleCharacters)`. */
  function CalculateRenderRect(measure: Text -> Metrics, samples: seq<Text>): (r: RenderRect)
    ensures r.height >= 0.0 && r.widthSingle >= 0.0 && r.widthDouble >= 0.0
    ensures samples == [] ==> r == Zero
  {
    Fold(measure, Zero, samples)
  }

  /** The sample set the application passes: "A", "m", "あ", "い", "👪", "🆙",
      as UTF-16 code units (the two emoji are surrogate pairs). */
  const DefaultSamples: seq<Text> := [
    [0x41], [0x6D], [0x3042], [0x3044], [0xD83D, 0xDC6A], [0xD83C, 0xDD99]
  ]

  // ---------------------------------------------------------------------------
  // Specification: each field is an exact maximum

  /** `v` is the maximum of `base` and the values in `vals`. */
  ghost predicate IsMaxOver(v: real, base: real, vals: set<real>) {
    v >= base
    && (forall x | x in vals :: x <= v)
    && (v == base || v in vals)
  }

  /** The heights the samples ask for. */
  ghost function Heights(measure: Text -> Metrics, samples: seq<Text>): set<real> {
    set s | s in samples :: SampleHeight(measure(s))
  }

  /** The advance widths of the samples of one class. */
  ghost function Widths(measure: Text -> Metrics, samples: seq<Text>, single: bool): set<real> {
    set s | s in samples && IsSingle(s) == single :: measure(s).width
  }

  /** The three fields of `r` are the maxima, over `samples`, of the heights and
      of the per-class widths, each floored by the matching field of `base`. */
  ghost predicate IsEnvelope(measure: Text -> Metrics, samples: seq<Text>, base: RenderRect, r: RenderRect) {
    IsMaxOver(r.height, base.height, Heights(measure, samples))
    && IsMaxOver(r.widthSingle, base.widthSingle, Widths(measure, samples, true))
    && IsMaxOver(r.widthDouble, base.widthDouble, Widths(measure, samples, false))
  }

  lemma HeadTail(measure: Text -> Metrics, samples: seq<Text>)
    requires samples != []
    ensures Heights(measure, samples) == {SampleHeight(measure(samples[0]))} + Heights(measure, samples[1..])
    ensures IsSingle(samples[0]) ==>
      Widths(measure, samples, true) == {measure(samples[0]).width} + Widths(measure, samples[1..], true)
      && Widths(measure, samples, false) == Widths(measure, samples[1..], false)
    ensures !IsSingle(samples[0]) ==>
      Widths(measure, samples, false) == {measure(samples[0]).width} + Widths(measure, samples[1..], false)
      && Widths(measure, samples, true) == Widths(measure, samples[1..], true)
  {
  }

  /** Folding from a non-negative-width accumulator yields the envelope of the
      samples floored by that accumulator. */
  lemma {:induction false} FoldIsEnvelope(measure: Text -> Metrics, acc: RenderRect, samples: seq<Text>)
    requires acc.widthSingle >= 0.0 && acc.widthDouble >= 0.0
    ensures IsEnvelope(measure, samples, acc, Fold(measure, acc, samples))
    decreases |samples|
  {
    if samples != [] {
      var next := Step(measure, acc, samples[0]);
      FoldIsEnvelope(measure, next, samples[1..]);
      HeadTail(measure, samples);
    }
  }

  /** The result of `calculateRenderRect` is exactly: the largest sample height,
      the largest width of a single-width sample and the largest width of a
      double-width sample, each at least 0. */
  lemma CalculateRenderRectIsEnvelope(measure: Text -> Metrics, samples: seq<Text>)
    ensures IsEnvelope(measure, samples, Zero, CalculateRenderRect(measure, samples))
  {
    FoldIsEnvelope(measure, Zero, samples);
  }

  /** Two envelopes over samples with the same members are equal. */
  lemma EnvelopeUnique(measure: Text -> Metrics, a: seq<Text>, b: seq<Text>, base: RenderRect, r1: RenderRect, r2: RenderRect)
    requires forall s :: s in a <==> s in b
    requires IsEnvelope(measure, a, base, r1) && IsEnvelope(measure, b, base, r2)
    ensures r1 == r2
  {
    assert Heights(measure, a) == Heights(measure, b);
    assert Widths(measure, a, true) == Widths(measure, b, true);
    assert Widths(measure, a, false) == Widths(measure, b, false);
  }

  // ---------------------------------------------------------------------------
  // Properties

  /** A class with no sample stays at 0. */
  lemma AbsentClassIsZero(measure: Text -> Metrics, samples: seq<Text>)
    ensures (forall s | s in samples :: !IsSingle(s)) ==> CalculateRenderRect(measure, samples).widthSingle == 0.0
    ensures (forall s | s in samples :: IsSingle(s)) ==> CalculateRenderRect(measure, samples).widthDouble == 0.0
  {
    CalculateRenderRectIsEnvelope(measure, samples);
  }

  /** The classification boundary: a leading 0x7F is single-width, a leading
      0x80 is double-width, and the empty sample is double-width. */
  lemma ClassificationBoundary(s: Text)
    ensures |s| > 0 && s[0] == 0x7F ==> IsSingle(s)
    ensures |s| > 0 && s[0] == 0x80 ==> !IsSingle(s)
    ensures s == [] ==> !IsSingle(s)
    ensures IsSingle(s) <==> |s| > 0 && s[0] <= 0x7F
  {
  }

  /** Of the default samples, "A" and "m" are single-width, the rest double. */
  lemma DefaultSamplesClassified()
    ensures forall i | 0 <= i < |DefaultSamples| :: IsSingle(DefaultSamples[i]) <==> i < 2
  {
  }

  /** `reduce` over a concatenation is `reduce` over the second part, started
      from the result over the first. */
  lemma {:induction false} FoldAppend(measure: Text -> Metrics, acc: RenderRect, a: seq<Text>, b: seq<Text>)
    ensures Fold(measure, acc, a + b) == Fold(measure, Fold(measure, acc, a), b)
    decreases |a|
  {
    if a == [] {
      assert a + b == b;
    } else {
      assert (a + b)[0] == a[0] && (a + b)[1..] == a[1..] + b;
      FoldAppend(measure, Step(measure, acc, a[0]), a[1..], b);
    }
  }

  /** Appending a sample never lowers any field, and a sample of one class
      leaves the other class's width as it was. */
  lemma AppendSample(measure: Text -> Metrics, samples: seq<Text>, s: Text)
    ensures var before, after := CalculateRenderRect(measure, samples), CalculateRenderRect(measure, samples + [s]);
      after.height >= before.height && after.widthSingle >= before.widthSingle && after.widthDouble >= before.widthDouble
      && (IsSingle(s) ==> after.widthDouble == before.widthDouble)
      && (!IsSingle(s) ==> after.widthSingle == before.widthSingle)
  {
    FoldAppend(measure, Zero, samples, [s]);
    assert Fold(measure, CalculateRenderRect(measure, samples), [s])
      == Step(measure, CalculateRenderRect(measure, samples), s);
  }

  /** The order of the samples does not matter: any permutation gives the
      same RenderRect. */
  lemma OrderIndependent(measure: Text -> Metrics, a: seq<Text>, b: seq<Text>)
    requires multiset(a) == multiset(b)
    ensures CalculateRenderRect(measure, a) == CalculateRenderRect(measure, b)
  {
    forall s ensures s in a <==> s in b {
      assert s in a <==> s in multiset(a);
      assert s in b <==> s in multiset(b);
    }
    CalculateRenderRectIsEnvelope(measure, a);
    CalculateRenderRectIsEnvelope(measure, b);
    EnvelopeUnique(measure, a, b, Zero, CalculateRenderRect(measure, a), CalculateRenderRect(measure, b));
  }

  /** Repeating a sample that is already in the set changes nothing. */
  lemma DuplicateSampleIgnored(measure: Text -> Metrics, samples: seq<Text>, s: Text)
    requires s in samples
    ensures CalculateRenderRect(measure, samples + [s]) == CalculateRenderRect(measure, samples)
  {
    forall t ensures t in samples + [s] <==> t in samples {
    }
    CalculateRenderRectIsEnvelope(measure, samples + [s]);
    CalculateRenderRectIsEnvelope(measure, samples);
    EnvelopeUnique(measure, samples + [s], samples, Zero,
      CalculateRenderRect(measure, samples + [s]), CalculateRenderRect(measure, samples));
  }

  /** The measurer of the worked example: "A" and "あ" with fixed metrics. */
  function ExampleMeasure(s: Text): Metrics {
    if s == [0x41] then Metrics(10.0, 2.0, 8.0, 1.0, 12.0)
    else if s == [0x3042] then Metrics(14.0, 3.0, 12.0, 2.0, 20.0)
    else Metrics(0.0, 0.0, 0.0, 0.0, 0.0)
  }

  /** Worked example: ["A", "あ"] gives height 17 (the font box of "あ"),
      widthSingle 12 and widthDouble 20. */
  lemma ExampleRenderRect()
    ensures CalculateRenderRect(ExampleMeasure, [[0x41], [0x3042]]) == RenderRect(17.0, 12.0, 20.0)
  {
  }
}
