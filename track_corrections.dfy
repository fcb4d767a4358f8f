/**
 * The HBT::Corrections namespace of track_corrections.h: range validation of a
 * track, a guarded bin lookup, and the efficiency and full track corrections.
 *
 * A thrown std::range_error is the Failure of a Result (or the Fail of an
 * Outcome) carrying which check failed and the offending value.
 */
module TrackCorrections {
  import opened Wrappers
  import opened Histograms

  const MAX_ETA: real := 2.4
  const MIN_PT: real := 0.15
  const MAX_PT: real := 500.0

  // The range SafeGetBinContent accepts a bin content in.
  const MIN_CONTENT: real := 0.0001
  const MAX_CONTENT: real := 0.9999

  /** The two range errors ValidateTrack throws. */
  datatype TrackError = EtaOutOfAcceptance(eta: real) | PtOutOfRange(pt: real)

  function Abs(x: real): real { if x < 0.0 then -x else x }

  /** ValidateTrack: the eta check comes first, then the pT range. */
  function ValidateTrack(pt: real, eta: real): (r: Outcome<TrackError>)
    ensures r.Pass? <==> Abs(eta) <= MAX_ETA && MIN_PT <= pt <= MAX_PT
    ensures Abs(eta) > MAX_ETA ==> r == Fail(EtaOutOfAcceptance(eta))
    ensures Abs(eta) <= MAX_ETA && (pt < MIN_PT || pt > MAX_PT) ==> r == Fail(PtOutOfRange(pt))
  {
    if Abs(eta) > MAX_ETA then Fail(EtaOutOfAcceptance(eta))
    else if pt < MIN_PT || pt > MAX_PT then Fail(PtOutOfRange(pt))
    else Pass
  }

  /**
   * SafeGetBinContent: the content of the bin holding (eta, pt), or the fallback
   * when that bin is outside the regular bins or its content is outside
   * [0.0001, 0.9999].
   */
  function SafeGetBinContent(hist: Hist2D, eta: real, pt: real, fallback: real): (r: real)
    ensures var xb, yb := FindBinX(hist, eta), FindBinY(hist, pt);
      && (!InGrid(hist, xb, yb) ==> r == fallback)
      && (r == fallback || (InGrid(hist, xb, yb) && r == BinContent(hist, xb, yb)))
      && (r != fallback ==> MIN_CONTENT <= r <= MAX_CONTENT)
      && (InGrid(hist, xb, yb) && MIN_CONTENT <= BinContent(hist, xb, yb) <= MAX_CONTENT ==>
            r == BinContent(hist, xb, yb))
  {
    var xbin := FindBinX(hist, eta);
    var ybin := FindBinY(hist, pt);
    if xbin < 1 || xbin > hist.nbinsX || ybin < 1 || ybin > hist.nbinsY then fallback
    else
      var val := BinContent(hist, xbin, ybin);
      if val < MIN_CONTENT || val > MAX_CONTENT then fallback else val
  }

  /** EfficiencyCorrection: validate, then 1 / efficiency with the fallback efficiency 1. */
  function EfficiencyCorrection(effMap: Hist2D, pt: real, eta: real): (r: Result<real, TrackError>)
    ensures ValidateTrack(pt, eta).Fail? ==> r == Failure(ValidateTrack(pt, eta).error)
    ensures r.Success? <==> ValidateTrack(pt, eta).Pass?
    ensures r.Success? ==> r.value == 1.0 / SafeGetBinContent(effMap, eta, pt, 1.0)
    ensures r.Success? ==> 1.0 <= r.value <= 10000.0
  {
    match ValidateTrack(pt, eta)
    case Fail(e) => Failure(e)
    case Pass =>
      var eff := SafeGetBinContent(effMap, eta, pt, 1.0);
      EfficiencyBounds(eff);
      Success(1.0 / eff)
  }

  /** An efficiency that is 1 or in [0.0001, 0.9999] has an inverse in [1, 10000]. */
  lemma EfficiencyBounds(eff: real)
    requires eff == 1.0 || MIN_CONTENT <= eff <= MAX_CONTENT
    ensures 1.0 <= 1.0 / eff <= 10000.0
  {
    if eff != 1.0 {
      assert 1.0 / eff >= 1.0 / MAX_CONTENT by { InverseAntitone(eff, MAX_CONTENT); }
      assert 1.0 / eff <= 1.0 / MIN_CONTENT by { InverseAntitone(MIN_CONTENT, eff); }
    }
  }

  /** 1/x is antitone on positive numbers. */
  lemma InverseAntitone(a: real, b: real)
    requires 0.0 < a <= b
    ensures 1.0 / b <= 1.0 / a
  {
    assert (1.0 / a) * a == 1.0;
    assert (1.0 / b) * b == 1.0;
    assert (1.0 / b) * a <= (1.0 / b) * b;
  }

  /**
   * FullTrackCorrection: validate, then combine efficiency (fallback 1) and fake
   * rate (fallback 0): mode 2 is 1/eff, mode 1 is (1 - fake)/eff, and every other
   * mode also folds in the secondary and multiple-reconstruction fractions,
   * which are 0 when their map is absent.
   */
  function FullTrackCorrection(effMap: Hist2D, fakeMap: Hist2D, secMap: Option<Hist2D>, mulMap: Option<Hist2D>,
                               pt: real, eta: real, mode: int): (r: Result<real, TrackError>)
    ensures ValidateTrack(pt, eta).Fail? ==> r == Failure(ValidateTrack(pt, eta).error)
    ensures r.Success? <==> ValidateTrack(pt, eta).Pass?
    ensures r.Success? ==> 0.0 < r.value <= 10000.0
  {
    match ValidateTrack(pt, eta)
    case Fail(e) => Failure(e)
    case Pass =>
      var eff := SafeGetBinContent(effMap, eta, pt, 1.0);
      var fake := SafeGetBinContent(fakeMap, eta, pt, 0.0);
      EfficiencyBounds(eff);
      if mode == 2 then Success(1.0 / eff)
      else if mode == 1 then
        FractionOverEfficiency(1.0 - fake, eff);
        Success((1.0 - fake) / eff)
      else
        var sec := FractionOr(secMap, eta, pt);
        var mul := FractionOr(mulMap, eta, pt);
        FullBounds(fake, sec, mul, eff);
        Success(FullFactor(eff, fake, sec, mul))
  }

  /** The mode-0 combination (1 - fake)(1 - sec)/eff/(1 + mul). */
  function FullFactor(eff: real, fake: real, sec: real, mul: real): real
    requires eff > 0.0 && mul >= 0.0
  {
    (1.0 - fake) * (1.0 - sec) / eff / (1.0 + mul)
  }

  /** sec_map ? SafeGetBinContent(sec_map, eta, pt, 0.0) : 0.0, and likewise for mul_map. */
  function FractionOr(fractionMap: Option<Hist2D>, eta: real, pt: real): (r: real)
    ensures fractionMap.None? ==> r == 0.0
    ensures r == 0.0 || MIN_CONTENT <= r <= MAX_CONTENT
  {
    match fractionMap
    case None => 0.0
    case Some(h) => SafeGetBinContent(h, eta, pt, 0.0)
  }

  /** A fraction in (0, 1] over an efficiency whose inverse is in [1, 10000] stays in (0, 10000]. */
  lemma FractionOverEfficiency(f: real, eff: real)
    requires 0.0 < f <= 1.0
    requires 0.0 < eff && 1.0 / eff <= 10000.0
    ensures 0.0 < f / eff <= 1.0 / eff
    ensures f / eff <= 10000.0
  {
    assert f / eff == f * (1.0 / eff);
    ScaleDown(1.0 / eff, f);
  }

  /** Multiplying a positive number by a fraction in (0, 1] keeps it positive and does not raise it. */
  lemma ScaleDown(g: real, k: real)
    requires 0.0 < g && 0.0 < k <= 1.0
    ensures 0.0 < k * g <= g
    ensures 0.0 < g * k <= g
  {
    assert g - k * g == (1.0 - k) * g;
    assert (1.0 - k) * g >= 0.0;
  }

  /** Dividing a positive number by at least 1 keeps it positive and does not raise it. */
  lemma DivideDown(g: real, d: real)
    requires 0.0 < g && 1.0 <= d
    ensures 0.0 < g / d <= g
  {
    InverseAntitone(1.0, d);
    assert g / d == g * (1.0 / d);
    ScaleDown(g, 1.0 / d);
  }

  /** (1 - fake)(1 - sec)/eff/(1 + mul) lies in (0, 1/eff] for fractions in the looked-up ranges. */
  lemma FullBounds(fake: real, sec: real, mul: real, eff: real)
    requires 0.0 <= fake < 1.0 && 0.0 <= sec < 1.0 && 0.0 <= mul
    requires 0.0 < eff && 1.0 / eff <= 10000.0
    ensures 0.0 < FullFactor(eff, fake, sec, mul) <= 1.0 / eff
  {
    var keptFake, keptSec := 1.0 - fake, 1.0 - sec;
    ScaleDown(keptSec, keptFake);
    var f := keptFake * keptSec;
    FractionOverEfficiency(f, eff);
    var g := f / eff;
    DivideDown(g, 1.0 + mul);
    assert FullFactor(eff, fake, sec, mul) == g / (1.0 + mul);
  }

  // ===================================================================
  // Lemmas
  // ===================================================================

  /** Mode 2 is exactly the efficiency correction, errors included. */
  lemma EfficiencyOnlyMode(effMap: Hist2D, fakeMap: Hist2D, secMap: Option<Hist2D>, mulMap: Option<Hist2D>,
                           pt: real, eta: real)
    ensures FullTrackCorrection(effMap, fakeMap, secMap, mulMap, pt, eta, 2) == EfficiencyCorrection(effMap, pt, eta)
  {
  }

  /**
   * The full correction never exceeds the efficiency correction, and equals it
   * when there are no secondary or multiple maps and no fake rate in the bin.
   */
  lemma FullCorrectionBelowEfficiency(effMap: Hist2D, fakeMap: Hist2D, secMap: Option<Hist2D>, mulMap: Option<Hist2D>,
                                      pt: real, eta: real, mode: int)
    ensures FullTrackCorrection(effMap, fakeMap, secMap, mulMap, pt, eta, mode).Success? ==
            EfficiencyCorrection(effMap, pt, eta).Success?
    ensures FullTrackCorrection(effMap, fakeMap, secMap, mulMap, pt, eta, mode).Success? ==>
            FullTrackCorrection(effMap, fakeMap, secMap, mulMap, pt, eta, mode).value <= EfficiencyCorrection(effMap, pt, eta).value
    ensures secMap.None? && mulMap.None? && SafeGetBinContent(fakeMap, eta, pt, 0.0) == 0.0 ==>
            FullTrackCorrection(effMap, fakeMap, secMap, mulMap, pt, eta, mode) == EfficiencyCorrection(effMap, pt, eta)
  {
    if ValidateTrack(pt, eta).Pass? {
      var eff := SafeGetBinContent(effMap, eta, pt, 1.0);
      var fake := SafeGetBinContent(fakeMap, eta, pt, 0.0);
      EfficiencyBounds(eff);
      assert EfficiencyCorrection(effMap, pt, eta) == Success(1.0 / eff);
      if mode == 1 {
        FakeModeBelow(effMap, fakeMap, secMap, mulMap, pt, eta);
      } else if mode != 2 {
        FullModeBelow(effMap, fakeMap, secMap, mulMap, pt, eta, mode);
      }
    }
  }

  /** Mode 1 of a valid track: (1 - fake)/eff, at most 1/eff, and 1/eff when fake is 0. */
  lemma FakeModeBelow(effMap: Hist2D, fakeMap: Hist2D, secMap: Option<Hist2D>, mulMap: Option<Hist2D>, pt: real, eta: real)
    requires ValidateTrack(pt, eta).Pass?
    ensures var eff, fake := SafeGetBinContent(effMap, eta, pt, 1.0), SafeGetBinContent(fakeMap, eta, pt, 0.0);
      var full := FullTrackCorrection(effMap, fakeMap, secMap, mulMap, pt, eta, 1);
      && full.Success? && full.value <= 1.0 / eff
      && (fake == 0.0 ==> full.value == 1.0 / eff)
  {
    var eff, fake := SafeGetBinContent(effMap, eta, pt, 1.0), SafeGetBinContent(fakeMap, eta, pt, 0.0);
    EfficiencyBounds(eff);
    var v := (1.0 - fake) / eff;
    assert FullTrackCorrection(effMap, fakeMap, secMap, mulMap, pt, eta, 1) == Success(v);
    FractionOverEfficiency(1.0 - fake, eff);
  }

  /** Mode 0 of a valid track: at most 1/eff, and 1/eff when no fraction applies. */
  lemma FullModeBelow(effMap: Hist2D, fakeMap: Hist2D, secMap: Option<Hist2D>, mulMap: Option<Hist2D>, pt: real, eta: real, mode: int)
    requires ValidateTrack(pt, eta).Pass? && mode != 1 && mode != 2
    ensures var eff, fake := SafeGetBinContent(effMap, eta, pt, 1.0), SafeGetBinContent(fakeMap, eta, pt, 0.0);
      var full := FullTrackCorrection(effMap, fakeMap, secMap, mulMap, pt, eta, mode);
      && full.Success? && full.value <= 1.0 / eff
      && (secMap.None? && mulMap.None? && fake == 0.0 ==> full.value == 1.0 / eff)
  {
    var eff, fake := SafeGetBinContent(effMap, eta, pt, 1.0), SafeGetBinContent(fakeMap, eta, pt, 0.0);
    EfficiencyBounds(eff);
    var sec, mul := FractionOr(secMap, eta, pt), FractionOr(mulMap, eta, pt);
    var v := FullFactor(eff, fake, sec, mul);
    assert FullTrackCorrection(effMap, fakeMap, secMap, mulMap, pt, eta, mode) == Success(v);
    FullBounds(fake, sec, mul, eff);
    if fake == 0.0 && sec == 0.0 && mul == 0.0 {
      assert v == 1.0 / eff;
    }
  }

  /** For a valid track, mode 1 is the efficiency correction scaled by (1 - fake). */
  lemma FakeModeScalesEfficiencyCorrection(effMap: Hist2D, fakeMap: Hist2D, secMap: Option<Hist2D>, mulMap: Option<Hist2D>,
                                           pt: real, eta: real)
    requires ValidateTrack(pt, eta).Pass?
    ensures var full, plain := FullTrackCorrection(effMap, fakeMap, secMap, mulMap, pt, eta, 1),
                               EfficiencyCorrection(effMap, pt, eta);
      && full.Success? && plain.Success?
      && full.value == (1.0 - SafeGetBinContent(fakeMap, eta, pt, 0.0)) * plain.value
  {
    var eff := SafeGetBinContent(effMap, eta, pt, 1.0);
    var fake := SafeGetBinContent(fakeMap, eta, pt, 0.0);
    EfficiencyBounds(eff);
    assert FullTrackCorrection(effMap, fakeMap, secMap, mulMap, pt, eta, 1).value == (1.0 - fake) / eff;
    DivisionAsScaling(1.0 - fake, eff);
  }

  /** Dividing by eff is multiplying by 1 / eff. */
  lemma DivisionAsScaling(f: real, eff: real)
    requires eff > 0.0
    ensures f / eff == f * (1.0 / eff)
  {
    assert (f / eff) * eff == f;
  }

  /** An invalid track yields an error from both corrections, whatever the maps and mode. */
  lemma InvalidTrackNeverCorrected(effMap: Hist2D, fakeMap: Hist2D, secMap: Option<Hist2D>, mulMap: Option<Hist2D>,
                                   pt: real, eta: real, mode: int)
    requires Abs(eta) > MAX_ETA || pt < MIN_PT || pt > MAX_PT
    ensures EfficiencyCorrection(effMap, pt, eta).Failure?
    ensures FullTrackCorrection(effMap, fakeMap, secMap, mulMap, pt, eta, mode).Failure?
  {
  }
}
