/**
 * tracking_correction.h: the older per-track efficiency weight. A track out of
 * the (eta, pT) acceptance gets weight 0; otherwise the centrality bin picks one
 * of five efficiency tables of the efficiency file, and the weight is the inverse
 * of that table's content in the bin holding (eta, pT).
 *
 * The efficiency file is a map from object names to histograms. A name that is
 * not in the file (a null pointer dereferenced in the source) and an efficiency
 * of exactly 0 (an infinite weight in the source) are the two Failure cases.
 */
module TrackingCorrection {
  import opened Wrappers
  import opened Histograms
  import TrackCorrections

  /** The five efficiency tables, from the most central class to the most peripheral. */
  datatype EfficiencyTable = Cent0To10 | Cent10To30 | Cent30To50 | Cent50To70 | Cent70To100
  {
    /** The object name the table is stored under in the efficiency file. */
    function Name(): string {
      match this
      case Cent0To10 => "rTotalEff3D_0_10"
      case Cent10To30 => "rTotalEff3D_10_30"
      case Cent30To50 => "rTotalEff3D_30_50"
      case Cent50To70 => "rTotalEff3D_50_70"
      case Cent70To100 => "rTotalEff3D_70_100"
    }

    /** Position of the table from central (0) to peripheral (4). */
    function Index(): nat {
      match this
      case Cent0To10 => 0
      case Cent10To30 => 1
      case Cent30To50 => 2
      case Cent50To70 => 3
      case Cent70To100 => 4
    }

    /** The centrality class in percent the table's name announces. */
    function LowPercent(): int {
      match this
      case Cent0To10 => 0
      case Cent10To30 => 10
      case Cent30To50 => 30
      case Cent50To70 => 50
      case Cent70To100 => 70
    }

    function HighPercent(): int {
      match this
      case Cent0To10 => 10
      case Cent10To30 => 30
      case Cent30To50 => 50
      case Cent50To70 => 70
      case Cent70To100 => 100
    }
  }

  /** The centrality bin counts in half-percent steps: bins 0..200 span 0-100%. */
  const MAX_CENTRALITY_BIN: int := 200

  /** checkBounds: the track is inside |eta| <= 2.4 and 0 <= pT <= 500. */
  function CheckBounds(pt: real, eta: real): (r: bool)
    ensures !r <==> TrackCorrections.Abs(eta) > 2.4 || pt < 0.0 || pt > 500.0
  {
    if TrackCorrections.Abs(eta) > 2.4 then false
    else if pt < 0.0 || pt > 500.0 then false
    else true
  }

  /** The if/else chain of getTrkCorrWeight choosing a table from the centrality bin. */
  function TableFor(centrality: int): EfficiencyTable {
    if centrality <= 20 then Cent0To10
    else if centrality > 20 && centrality <= 60 then Cent10To30
    else if centrality > 60 && centrality <= 100 then Cent30To50
    else if centrality > 100 && centrality <= 140 then Cent50To70
    else Cent70To100
  }

  /** Why no weight could be computed. */
  datatype WeightError = MissingTable(name: string) | ZeroEfficiency(table: string)

  /**
   * getTrkCorrWeight: 0 out of bounds; else 1/eff of the selected table at the
   * bins FindBin gives for (eta, pT), with no range guard on eff.
   */
  function GetTrkCorrWeight(file: map<string, Hist2D>, centrality: int, pT: real, eta: real): (r: Result<real, WeightError>)
    ensures !CheckBounds(pT, eta) ==> r == Success(0.0)
    ensures CheckBounds(pT, eta) && TableFor(centrality).Name() !in file ==>
              r == Failure(MissingTable(TableFor(centrality).Name()))
    ensures CheckBounds(pT, eta) && TableFor(centrality).Name() in file ==>
              var h := file[TableFor(centrality).Name()];
              var eff := BinContent(h, FindBinX(h, eta), FindBinY(h, pT));
              && (eff == 0.0 <==> r.Failure?)
              && (r.Success? ==> r.value * eff == 1.0)
  {
    if !CheckBounds(pT, eta) then Success(0.0)
    else
      var name := TableFor(centrality).Name();
      if name !in file then Failure(MissingTable(name))
      else
        var h := file[name];
        var eff := BinContent(h, FindBinX(h, eta), FindBinY(h, pT));
        if eff == 0.0 then Failure(ZeroEfficiency(name))
        else Success(1.0 / eff)
  }

  // ===================================================================
  // Lemmas
  // ===================================================================

  /**
   * The table chosen for a centrality bin in 0..200 is the one whose name's
   * percent class holds that bin (bin 0 belongs to the first class), and bins
   * below 0 or above 200 fall to the first and last table.
   */
  lemma TableMatchesItsName(centrality: int, t: EfficiencyTable)
    requires 0 <= centrality <= MAX_CENTRALITY_BIN
    ensures TableFor(centrality) == t <==>
              (2 * t.LowPercent() < centrality || (centrality == 0 && t.LowPercent() == 0))
              && centrality <= 2 * t.HighPercent()
  {
  }

  /** Out of the 0..200 range the chain still picks a table: the first below, the last above. */
  lemma TableOutsideRange(centrality: int)
    ensures centrality < 0 ==> TableFor(centrality) == Cent0To10
    ensures centrality > MAX_CENTRALITY_BIN ==> TableFor(centrality) == Cent70To100
  {
  }

  /** The table index never decreases as the centrality bin grows. */
  lemma TableIndexMonotone(c1: int, c2: int)
    requires c1 <= c2
    ensures TableFor(c1).Index() <= TableFor(c2).Index()
  {
  }

  /** The five tables are stored under five different names. */
  lemma TableNamesDistinct(t1: EfficiencyTable, t2: EfficiencyTable)
    requires t1 != t2
    ensures t1.Name() != t2.Name()
  {
    assert t1.Name()[|"rTotalEff3D_"|..] != t2.Name()[|"rTotalEff3D_"|..];
  }

  /** An out-of-bounds track gets weight 0 whatever the file and the centrality. */
  lemma OutOfBoundsIgnoresTables(f1: map<string, Hist2D>, f2: map<string, Hist2D>, c1: int, c2: int, pT: real, eta: real)
    requires !CheckBounds(pT, eta)
    ensures GetTrkCorrWeight(f1, c1, pT, eta) == GetTrkCorrWeight(f2, c2, pT, eta) == Success(0.0)
  {
  }

  /** Only the selected table is consulted: files that agree on it give the same weight. */
  lemma OnlySelectedTableMatters(f1: map<string, Hist2D>, f2: map<string, Hist2D>, centrality: int, pT: real, eta: real)
    requires var name := TableFor(centrality).Name();
      (name in f1 <==> name in f2) && (name in f1 ==> f1[name] == f2[name])
    ensures GetTrkCorrWeight(f1, centrality, pT, eta) == GetTrkCorrWeight(f2, centrality, pT, eta)
  {
  }

  /** Every track ValidateTrack accepts is inside checkBounds. */
  lemma ValidatedTrackInBounds(pT: real, eta: real)
    requires TrackCorrections.ValidateTrack(pT, eta).Pass?
    ensures CheckBounds(pT, eta)
  {
  }

  /** The converse fails: checkBounds accepts pT below the 0.15 GeV ValidateTrack requires. */
  lemma InBoundsNotValidated()
    ensures CheckBounds(0.1, 0.0) && TrackCorrections.ValidateTrack(0.1, 0.0).Fail?
  {
  }

  /**
   * For a validated track whose selected table has a regular bin with content in
   * [0.0001, 0.9999], the weight is the EfficiencyCorrection of that table.
   */
  lemma AgreesWithEfficiencyCorrection(file: map<string, Hist2D>, centrality: int, pT: real, eta: real)
    requires TrackCorrections.ValidateTrack(pT, eta).Pass?
    requires TableFor(centrality).Name() in file
    requires var h := file[TableFor(centrality).Name()];
      var xb, yb := FindBinX(h, eta), FindBinY(h, pT);
      InGrid(h, xb, yb) && TrackCorrections.MIN_CONTENT <= BinContent(h, xb, yb) <= TrackCorrections.MAX_CONTENT
    ensures var h := file[TableFor(centrality).Name()];
      var w, e := GetTrkCorrWeight(file, centrality, pT, eta), TrackCorrections.EfficiencyCorrection(h, pT, eta);
      w.Success? && e.Success? && w.value == e.value
  {
  }
}
