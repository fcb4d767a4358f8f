/**
 * The same-event pair loop AnalyzeHBTCorrelations of functions_definition.h and
 * the histogram sink it fills.
 *
 * HBTHistograms is a sink whose only observable behaviour here is the ordered
 * list of FillCorrelation calls it has received; what it does with them (the
 * ROOT histograms) is not part of the model.
 *
 * The loop's per-pair decisions (the split veto, the charge-sign routing and the
 * weight) are collected in a ghost table of verdicts; the order in which pairs
 * are visited and the routing of their fills are stated over that table.
 */
module PairAnalysis {
  import opened Kinematics

  /** The arguments of one FillCorrelation call. */
  datatype PairFill = PairFill(t1: LorentzVec, t2: LorentzVec, cent: int, weight: real)

  /** A histogram set that records every FillCorrelation call, in order. */
  class HBTHistograms {
    var fills: seq<PairFill>

    constructor ()
      ensures fills == []
    {
      fills := [];
    }

    method FillCorrelation(t1: LorentzVec, t2: LorentzVec, cent: int, weight: real)
      modifies this
      ensures fills == old(fills) + [PairFill(t1, t2, cent, weight)]
    {
      fills := fills + [PairFill(t1, t2, cent, weight)];
    }
  }

  /** The per-event inputs of the pair loop: track momenta, charges and weights. */
  datatype EventTracks = EventTracks(tracks: seq<LorentzVec>, charges: seq<int>, weights: seq<real>)
  {
    /** The loop indexes charges and weights with every track index. */
    predicate WellFormed() {
      |charges| >= |tracks| && |weights| >= |tracks|
    }
  }

  /** A pair of track indices as the loop visits it. */
  datatype Pair = Pair(i: int, j: int)

  /** The loop's pairs of n tracks: first index below the second. */
  predicate InRange(n: int, p: Pair) {
    0 <= p.i < p.j < n
  }

  /** charges[i] * charges[j] > 0 routes the pair to the same-sign sink. */
  predicate IsSameSign(ev: EventTracks, p: Pair)
    requires ev.WellFormed() && InRange(|ev.tracks|, p)
  {
    ev.charges[p.i] * ev.charges[p.j] > 0
  }

  /** The Gamow factor matching the pair's charge combination. */
  function CoulombFactor(lib: MathLib, ev: EventTracks, p: Pair, syst: int): real
    requires ev.WellFormed() && InRange(|ev.tracks|, p)
  {
    var qinv := CalculateQinv(lib, ev.tracks[p.i], ev.tracks[p.j]);
    if IsSameSign(ev, p) then CoulombSSWeight(lib, qinv, syst) else CoulombOSWeight(lib, qinv, syst)
  }

  /** The pair weight: the product of the track weights, times the Gamow factor when applied. */
  function PairWeight(lib: MathLib, ev: EventTracks, p: Pair, applyCoulomb: bool, syst: int): real
    requires ev.WellFormed() && InRange(|ev.tracks|, p)
  {
    var w := ev.weights[p.i] * ev.weights[p.j];
    if applyCoulomb then w * CoulombFactor(lib, ev, p, syst) else w
  }

  // ------------------------------------------------------- the verdicts

  /** What the loop decides for one pair: kept or vetoed as split, its sign, and its fill. */
  datatype Verdict = Verdict(kept: bool, sameSign: bool, fill: PairFill)

  /** The verdict of pair p: the split veto, the sign test and the FillCorrelation arguments. */
  function VerdictOf(lib: MathLib, ev: EventTracks, p: Pair, cent: int, applyCoulomb: bool, syst: int): Verdict
    requires ev.WellFormed() && InRange(|ev.tracks|, p)
  {
    Verdict(!IsSplitPair(lib, ev.tracks[p.i], ev.tracks[p.j]), IsSameSign(ev, p),
            PairFill(ev.tracks[p.i], ev.tracks[p.j], cent, PairWeight(lib, ev, p, applyCoulomb, syst)))
  }

  /** A square table with a verdict for every index pair; only entries with i < j are read. */
  predicate IsTable(t: seq<seq<Verdict>>) {
    forall i :: 0 <= i < |t| ==> |t[i]| == |t|
  }

  /** The verdicts of every pair of the event. */
  function Verdicts(lib: MathLib, ev: EventTracks, cent: int, applyCoulomb: bool, syst: int): (t: seq<seq<Verdict>>)
    requires ev.WellFormed()
    ensures |t| == |ev.tracks| && IsTable(t)
    ensures forall i, j :: 0 <= i < j < |ev.tracks| ==> t[i][j] == VerdictOf(lib, ev, Pair(i, j), cent, applyCoulomb, syst)
  {
    var n := |ev.tracks|;
    seq(n, i requires 0 <= i < n =>
      seq(n, j requires 0 <= j < n =>
        if i < j then VerdictOf(lib, ev, Pair(i, j), cent, applyCoulomb, syst)
        else Verdict(false, false, PairFill(ev.tracks[i], ev.tracks[j], cent, 0.0))))
  }

  /**
   * t holds the verdict of every pair of the event. The loop carries this
   * instead of t == Verdicts(...), so that only a step that names a pair's
   * VerdictOf looks at the arithmetic behind it.
   */
  ghost predicate Describes(lib: MathLib, ev: EventTracks, t: seq<seq<Verdict>>, cent: int, applyCoulomb: bool, syst: int) {
    && ev.WellFormed() && IsTable(t) && |t| == |ev.tracks|
    && forall i, j {:trigger VerdictOf(lib, ev, Pair(i, j), cent, applyCoulomb, syst)} ::
         0 <= i < j < |t| ==> t[i][j] == VerdictOf(lib, ev, Pair(i, j), cent, applyCoulomb, syst)
  }

  // ---------------------------------------------------- the visiting order

  /** The kept pairs (i, j') with i < j' < j, in increasing j'. */
  function RowPairs(t: seq<seq<Verdict>>, i: int, j: int): (r: seq<Pair>)
    requires IsTable(t) && 0 <= i < |t| && i < j <= |t|
    ensures forall k :: 0 <= k < |r| ==> r[k].i == i && i < r[k].j < j
    decreases j
  {
    if j == i + 1 then []
    else RowPairs(t, i, j - 1) + (if t[i][j - 1].kept then [Pair(i, j - 1)] else [])
  }

  /** The kept pairs whose first index is below i, in the order the loop visits them. */
  function PairsBefore(t: seq<seq<Verdict>>, i: int): (r: seq<Pair>)
    requires IsTable(t) && 0 <= i <= |t|
    ensures forall k :: 0 <= k < |r| ==> 0 <= r[k].i < i && InRange(|t|, r[k])
  {
    if i == 0 then [] else PairsBefore(t, i - 1) + RowPairs(t, i - 1, |t|)
  }

  /** Every kept pair of the event, in visiting order. */
  function AllPairs(t: seq<seq<Verdict>>): seq<Pair>
    requires IsTable(t)
  {
    PairsBefore(t, |t|)
  }

  /** The kept pairs the loop has handled when it is about to visit (i, j). */
  function PairsUpTo(t: seq<seq<Verdict>>, i: int, j: int): (r: seq<Pair>)
    requires IsTable(t) && 0 <= i < |t| && i < j <= |t|
    ensures forall k :: 0 <= k < |r| ==> InRange(|t|, r[k])
  {
    PairsBefore(t, i) + RowPairs(t, i, j)
  }

  predicate AllInRange(n: int, ps: seq<Pair>) {
    forall k :: 0 <= k < |ps| ==> InRange(n, ps[k])
  }

  // ------------------------------------------------------------ the sinks

  /**
   * The three ways a run of the loop is observed: the same-sign and the
   * opposite-sign sink when they are distinct objects, or the one object
   * passed as both.
   */
  datatype Sink = SameSignSink | OppositeSignSink | SharedSink

  /** The sink receives the call for pair p: by the sign of its charge product, or always when shared. */
  predicate Receives(t: seq<seq<Verdict>>, sink: Sink, p: Pair)
    requires IsTable(t) && InRange(|t|, p)
  {
    match sink
    case SameSignSink => t[p.i][p.j].sameSign
    case OppositeSignSink => !t[p.i][p.j].sameSign
    case SharedSink => true
  }

  /** The call the sink receives for a visited pair p: its fill when p goes to that sink. */
  function Delivered(t: seq<seq<Verdict>>, sink: Sink, p: Pair): seq<PairFill> {
    if IsTable(t) && InRange(|t|, p) && Receives(t, sink, p) then [t[p.i][p.j].fill] else []
  }

  /** The calls the sink receives for the visited pairs ps, in order. */
  function SinkFills(t: seq<seq<Verdict>>, ps: seq<Pair>, sink: Sink): seq<PairFill> {
    if |ps| == 0 then []
    else SinkFills(t, ps[..|ps| - 1], sink) + Delivered(t, sink, ps[|ps| - 1])
  }

  // ------------------------------------------------------------ the loop state

  /** The call the sink receives when the loop reaches pair p: none for a split pair. */
  function VisitFills(t: seq<seq<Verdict>>, sink: Sink, p: Pair): seq<PairFill>
    requires IsTable(t) && InRange(|t|, p)
  {
    if t[p.i][p.j].kept then Delivered(t, sink, p) else []
  }

  /** The calls the sink has received when the loop is about to visit (i, j). */
  function FillsUpTo(t: seq<seq<Verdict>>, sink: Sink, i: int, j: int): seq<PairFill>
    requires IsTable(t) && 0 <= i < |t| && i < j <= |t|
    decreases i, j
  {
    if j == i + 1 then FillsBefore(t, sink, i)
    else FillsUpTo(t, sink, i, j - 1) + VisitFills(t, sink, Pair(i, j - 1))
  }

  /** The calls the sink has received when the loop starts row i. */
  function FillsBefore(t: seq<seq<Verdict>>, sink: Sink, i: int): seq<PairFill>
    requires IsTable(t) && 0 <= i <= |t|
    decreases i, 0
  {
    if i == 0 then [] else FillsUpTo(t, sink, i - 1, |t|)
  }

  /**
   * The sinks hold what they held before the loop (s0 and o0) followed by the
   * calls of their sign; one object passed as both holds every call.
   */
  ghost predicate Routed(aliased: bool, sameFills: seq<PairFill>, oppFills: seq<PairFill>,
                         s0: seq<PairFill>, o0: seq<PairFill>,
                         same: seq<PairFill>, opp: seq<PairFill>, shared: seq<PairFill>)
  {
    if aliased then sameFills == oppFills == s0 + shared
    else sameFills == s0 + same && oppFills == o0 + opp
  }

  /** The sinks are routed as the loop leaves them before it visits (i, j). */
  ghost predicate RoutedAt(t: seq<seq<Verdict>>, aliased: bool,
                           sameFills: seq<PairFill>, oppFills: seq<PairFill>,
                           s0: seq<PairFill>, o0: seq<PairFill>, i: int, j: int)
  {
    && IsTable(t) && 0 <= i < |t| && i < j <= |t|
    && Routed(aliased, sameFills, oppFills, s0, o0,
              FillsUpTo(t, SameSignSink, i, j), FillsUpTo(t, OppositeSignSink, i, j), FillsUpTo(t, SharedSink, i, j))
  }

  /** The sinks are routed as the loop leaves them before row i. */
  ghost predicate RoutedBefore(t: seq<seq<Verdict>>, aliased: bool,
                               sameFills: seq<PairFill>, oppFills: seq<PairFill>,
                               s0: seq<PairFill>, o0: seq<PairFill>, i: int)
  {
    && IsTable(t) && 0 <= i <= |t|
    && Routed(aliased, sameFills, oppFills, s0, o0,
              FillsBefore(t, SameSignSink, i), FillsBefore(t, OppositeSignSink, i), FillsBefore(t, SharedSink, i))
  }

  // ------------------------------------------------------------ the loop

  /**
   * The body of the inner loop of AnalyzeHBTCorrelations for the pair (i, j):
   * skip it when split, otherwise weigh it and fill the sink of its sign.
   * t holds the event's verdicts, s0 and o0 what the sinks held before the loop.
   */
  method VisitPair(lib: MathLib, ev: EventTracks, hSame: HBTHistograms, hOpp: HBTHistograms,
                   i: int, j: int, cent: int, applyCoulomb: bool, syst: int,
                   ghost t: seq<seq<Verdict>>, ghost aliased: bool, ghost s0: seq<PairFill>, ghost o0: seq<PairFill>)
    requires Describes(lib, ev, t, cent, applyCoulomb, syst) && 0 <= i < j < |ev.tracks|
    requires aliased <==> hSame == hOpp
    requires RoutedAt(t, aliased, hSame.fills, hOpp.fills, s0, o0, i, j)
    modifies hSame, hOpp
    ensures RoutedAt(t, aliased, hSame.fills, hOpp.fills, s0, o0, i, j + 1)
  {
    var p := Pair(i, j);
    assert t[i][j] == VerdictOf(lib, ev, p, cent, applyCoulomb, syst);
    ghost var same := FillsUpTo(t, SameSignSink, i, j);
    ghost var opp := FillsUpTo(t, OppositeSignSink, i, j);
    ghost var shared := FillsUpTo(t, SharedSink, i, j);
    if IsSplitPair(lib, ev.tracks[i], ev.tracks[j]) {
      assert same + [] == same && opp + [] == opp && shared + [] == shared;
      return;
    }
    // lines 166-174: the weight, with the Gamow factor of the pair's sign when applied
    var weight := PairWeight(lib, ev, p, applyCoulomb, syst);
    var isSameSign := ev.charges[i] * ev.charges[j] > 0;
    var h := if isSameSign then hSame else hOpp;
    h.FillCorrelation(ev.tracks[i], ev.tracks[j], cent, weight);
    ghost var fill := t[i][j].fill;
    assert s0 + shared + [fill] == s0 + (shared + [fill]);
    if isSameSign {
      assert s0 + same + [fill] == s0 + (same + [fill]) && opp + [] == opp;
    } else {
      assert o0 + opp + [fill] == o0 + (opp + [fill]) && same + [] == same;
    }
  }

  /**
   * The inner j-loop of AnalyzeHBTCorrelations for one first track i, over
   * every j > i in turn.
   */
  method AnalyzeRow(lib: MathLib, ev: EventTracks, hSame: HBTHistograms, hOpp: HBTHistograms,
                    i: int, cent: int, applyCoulomb: bool, syst: int,
                    ghost t: seq<seq<Verdict>>, ghost aliased: bool, ghost s0: seq<PairFill>, ghost o0: seq<PairFill>)
    requires Describes(lib, ev, t, cent, applyCoulomb, syst) && 0 <= i < |ev.tracks|
    requires aliased <==> hSame == hOpp
    requires RoutedBefore(t, aliased, hSame.fills, hOpp.fills, s0, o0, i)
    modifies hSame, hOpp
    ensures RoutedBefore(t, aliased, hSame.fills, hOpp.fills, s0, o0, i + 1)
  {
    var n := |ev.tracks|;
    var j := i + 1;
    while j < n
      invariant i + 1 <= j <= n
      invariant RoutedAt(t, aliased, hSame.fills, hOpp.fills, s0, o0, i, j)
    {
      VisitPair(lib, ev, hSame, hOpp, i, j, cent, applyCoulomb, syst, t, aliased, s0, o0);
      j := j + 1;
    }
  }

  /**
   * The two nested loops of AnalyzeHBTCorrelations over the event's verdicts t:
   * with distinct sinks, each gains the calls of its sign in visiting order;
   * with one object passed as both, it gains every call.
   */
  method PairLoop(lib: MathLib, ev: EventTracks, hSame: HBTHistograms, hOpp: HBTHistograms,
                  cent: int, applyCoulomb: bool, syst: int, ghost t: seq<seq<Verdict>>)
    requires Describes(lib, ev, t, cent, applyCoulomb, syst)
    modifies hSame, hOpp
    ensures hSame != hOpp ==>
      && hSame.fills == old(hSame.fills) + SinkFills(t, AllPairs(t), SameSignSink)
      && hOpp.fills == old(hOpp.fills) + SinkFills(t, AllPairs(t), OppositeSignSink)
    ensures hSame == hOpp ==> hSame.fills == old(hSame.fills) + SinkFills(t, AllPairs(t), SharedSink)
  {
    ghost var s0, o0 := hSame.fills, hOpp.fills;
    ghost var aliased := hSame == hOpp;
    var n := |ev.tracks|;
    var i := 0;
    assert s0 + [] == s0 && o0 + [] == o0;
    while i < n
      invariant 0 <= i <= n
      invariant RoutedBefore(t, aliased, hSame.fills, hOpp.fills, s0, o0, i)
    {
      AnalyzeRow(lib, ev, hSame, hOpp, i, cent, applyCoulomb, syst, t, aliased, s0, o0);
      i := i + 1;
    }
    FillsBeforeVisited(t, SameSignSink, n);
    FillsBeforeVisited(t, OppositeSignSink, n);
    FillsBeforeVisited(t, SharedSink, n);
  }

  /**
   * AnalyzeHBTCorrelations: for every i < j, skip split pairs, weigh the pair,
   * and hand it to hSame when the charges agree in sign and to hOpp otherwise.
   * When both arguments are the same object, it receives every call in order.
   */
  method AnalyzeHBTCorrelations(lib: MathLib, ev: EventTracks,
                                hSame: HBTHistograms, hOpp: HBTHistograms,
                                cent: int, applyCoulomb: bool, syst: int)
    requires ev.WellFormed()
    modifies hSame, hOpp
    ensures var t := Verdicts(lib, ev, cent, applyCoulomb, syst);
      hSame != hOpp ==>
        && hSame.fills == old(hSame.fills) + SinkFills(t, AllPairs(t), SameSignSink)
        && hOpp.fills == old(hOpp.fills) + SinkFills(t, AllPairs(t), OppositeSignSink)
    ensures var t := Verdicts(lib, ev, cent, applyCoulomb, syst);
      hSame == hOpp ==> hSame.fills == old(hSame.fills) + SinkFills(t, AllPairs(t), SharedSink)
  {
    ghost var t := Verdicts(lib, ev, cent, applyCoulomb, syst);
    PairLoop(lib, ev, hSame, hOpp, cent, applyCoulomb, syst, t);
  }

  // ===================================================================
  // Lemmas
  // ===================================================================

  /** Pair a comes strictly before pair b in the loop's (i, j) order. */
  predicate Before(a: Pair, b: Pair) {
    a.i < b.i || (a.i == b.i && a.j < b.j)
  }

  /** A row holds exactly the kept pairs (i, j') with i < j' < j, in increasing j'. */
  lemma {:induction false} RowPairsExactly(t: seq<seq<Verdict>>, i: int, j: int)
    requires IsTable(t) && 0 <= i < |t| && i < j <= |t|
    ensures forall p :: p in RowPairs(t, i, j) <==> p.i == i && i < p.j < j && t[i][p.j].kept
    ensures forall a, b :: 0 <= a < b < |RowPairs(t, i, j)| ==> RowPairs(t, i, j)[a].j < RowPairs(t, i, j)[b].j
    decreases j
  {
    if j > i + 1 {
      RowPairsExactly(t, i, j - 1);
    }
  }

  /**
   * The pairs visited before row i are exactly the kept pairs whose first index
   * is below i, each once, in strictly increasing (i, j) order.
   */
  lemma {:induction false} PairsBeforeExactly(t: seq<seq<Verdict>>, i: int)
    requires IsTable(t) && 0 <= i <= |t|
    ensures forall p :: p in PairsBefore(t, i) <==> p.i < i && InRange(|t|, p) && t[p.i][p.j].kept
    ensures forall a, b :: 0 <= a < b < |PairsBefore(t, i)| ==> Before(PairsBefore(t, i)[a], PairsBefore(t, i)[b])
  {
    if i > 0 {
      PairsBeforeExactly(t, i - 1);
      RowPairsExactly(t, i - 1, |t|);
      var prev, row := PairsBefore(t, i - 1), RowPairs(t, i - 1, |t|);
      assert PairsBefore(t, i) == prev + row;
      forall a, b | 0 <= a < b < |prev + row|
        ensures Before((prev + row)[a], (prev + row)[b])
      {
        if b < |prev| {
        } else if a < |prev| {
          assert prev[a] in prev;
          assert row[b - |prev|] in row;
        } else {
          assert row[a - |prev|].j < row[b - |prev|].j;
        }
      }
    }
  }

  /**
   * The loop visits every pair i < j of distinct tracks that is not split, exactly
   * once, in increasing (i, j) order, and never a split pair or a track with itself.
   */
  lemma VisitsEachKeptPairOnce(lib: MathLib, ev: EventTracks, cent: int, applyCoulomb: bool, syst: int)
    requires ev.WellFormed()
    ensures var ps := AllPairs(Verdicts(lib, ev, cent, applyCoulomb, syst));
      && (forall p :: p in ps <==> 0 <= p.i < p.j < |ev.tracks| && !IsSplitPair(lib, ev.tracks[p.i], ev.tracks[p.j]))
      && (forall a, b :: 0 <= a < b < |ps| ==> Before(ps[a], ps[b]))
      && (forall a, b :: 0 <= a < b < |ps| ==> ps[a] != ps[b])
  {
    var t := Verdicts(lib, ev, cent, applyCoulomb, syst);
    PairsBeforeExactly(t, |t|);
  }

  /** The sink a pair of the given sign goes to when the two sinks are distinct. */
  function SignSink(sameSign: bool): Sink {
    if sameSign then SameSignSink else OppositeSignSink
  }

  /** Between them the two sinks receive one call per pair. */
  lemma {:induction false} SignFillsCount(t: seq<seq<Verdict>>, ps: seq<Pair>)
    requires IsTable(t) && AllInRange(|t|, ps)
    ensures |SinkFills(t, ps, SameSignSink)| + |SinkFills(t, ps, OppositeSignSink)| == |ps|
  {
    if ps != [] {
      var init := ps[..|ps| - 1];
      assert AllInRange(|t|, init);
      SignFillsCount(t, init);
    }
  }

  /** Each pair's fill is in the sink of its sign. */
  lemma {:induction false} SignFillsComplete(t: seq<seq<Verdict>>, ps: seq<Pair>)
    requires IsTable(t) && AllInRange(|t|, ps)
    ensures forall k :: 0 <= k < |ps| ==>
      t[ps[k].i][ps[k].j].fill in SinkFills(t, ps, SignSink(t[ps[k].i][ps[k].j].sameSign))
  {
    if ps != [] {
      var init := ps[..|ps| - 1];
      assert AllInRange(|t|, init);
      SignFillsComplete(t, init);
      forall k | 0 <= k < |ps|
        ensures t[ps[k].i][ps[k].j].fill in SinkFills(t, ps, SignSink(t[ps[k].i][ps[k].j].sameSign))
      {
        var sink := SignSink(t[ps[k].i][ps[k].j].sameSign);
        var prefix := SinkFills(t, init, sink);
        assert prefix <= SinkFills(t, ps, sink);
        if k < |init| {
          assert ps[k] == init[k];
          assert t[ps[k].i][ps[k].j].fill in prefix;
        }
      }
    }
  }

  /** Every call in a sink is the fill of a visited pair of that sink's sign. */
  lemma {:induction false} SignFillsSound(t: seq<seq<Verdict>>, ps: seq<Pair>, sameSign: bool)
    requires IsTable(t) && AllInRange(|t|, ps)
    ensures forall f :: f in SinkFills(t, ps, SignSink(sameSign)) ==>
      exists k :: 0 <= k < |ps| && t[ps[k].i][ps[k].j].sameSign == sameSign && f == t[ps[k].i][ps[k].j].fill
  {
    if ps != [] {
      var init := ps[..|ps| - 1];
      var sink := SignSink(sameSign);
      assert AllInRange(|t|, init);
      SignFillsSound(t, init, sameSign);
      forall f | f in SinkFills(t, ps, sink)
        ensures exists k :: 0 <= k < |ps| && t[ps[k].i][ps[k].j].sameSign == sameSign && f == t[ps[k].i][ps[k].j].fill
      {
        if f in SinkFills(t, init, sink) {
          var k :| 0 <= k < |init| && t[init[k].i][init[k].j].sameSign == sameSign && f == t[init[k].i][init[k].j].fill;
          assert ps[k] == init[k];
        } else {
          var k := |ps| - 1;
          assert t[ps[k].i][ps[k].j].sameSign == sameSign && f == t[ps[k].i][ps[k].j].fill;
        }
      }
    }
  }

  /**
   * In the event's own terms: a sign's sink receives a call with arguments f exactly
   * when some pair i < j of tracks that is not split has that charge sign and f is
   * its two tracks, the centrality and PairWeight.
   */
  lemma SignFillsOfEvent(lib: MathLib, ev: EventTracks, cent: int, applyCoulomb: bool, syst: int, sameSign: bool)
    requires ev.WellFormed()
    ensures var t := Verdicts(lib, ev, cent, applyCoulomb, syst);
      forall f :: f in SinkFills(t, AllPairs(t), SignSink(sameSign)) <==>
        exists p :: && InRange(|ev.tracks|, p) && !IsSplitPair(lib, ev.tracks[p.i], ev.tracks[p.j])
                    && IsSameSign(ev, p) == sameSign
                    && f == PairFill(ev.tracks[p.i], ev.tracks[p.j], cent, PairWeight(lib, ev, p, applyCoulomb, syst))
  {
    var t := Verdicts(lib, ev, cent, applyCoulomb, syst);
    forall f | f in SinkFills(t, AllPairs(t), SignSink(sameSign))
      ensures exists p :: && InRange(|ev.tracks|, p) && !IsSplitPair(lib, ev.tracks[p.i], ev.tracks[p.j])
                          && IsSameSign(ev, p) == sameSign
                          && f == PairFill(ev.tracks[p.i], ev.tracks[p.j], cent, PairWeight(lib, ev, p, applyCoulomb, syst))
    {
      var p := EventFillSound(lib, ev, cent, applyCoulomb, syst, sameSign, f);
    }
    forall p | && InRange(|ev.tracks|, p) && !IsSplitPair(lib, ev.tracks[p.i], ev.tracks[p.j])
               && IsSameSign(ev, p) == sameSign
      ensures PairFill(ev.tracks[p.i], ev.tracks[p.j], cent, PairWeight(lib, ev, p, applyCoulomb, syst))
              in SinkFills(t, AllPairs(t), SignSink(sameSign))
    {
      EventFillComplete(lib, ev, cent, applyCoulomb, syst, p);
    }
  }

  /** One call in a sign's sink, traced back to the pair that made it. */
  lemma EventFillSound(lib: MathLib, ev: EventTracks, cent: int, applyCoulomb: bool, syst: int, sameSign: bool, f: PairFill)
      returns (p: Pair)
    requires ev.WellFormed()
    requires var t := Verdicts(lib, ev, cent, applyCoulomb, syst);
      f in SinkFills(t, AllPairs(t), SignSink(sameSign))
    ensures && InRange(|ev.tracks|, p) && !IsSplitPair(lib, ev.tracks[p.i], ev.tracks[p.j])
            && IsSameSign(ev, p) == sameSign
            && f == PairFill(ev.tracks[p.i], ev.tracks[p.j], cent, PairWeight(lib, ev, p, applyCoulomb, syst))
  {
    var t := Verdicts(lib, ev, cent, applyCoulomb, syst);
    var ps := AllPairs(t);
    assert AllInRange(|t|, ps);
    PairsBeforeExactly(t, |t|);
    SignFillsSound(t, ps, sameSign);
    var k :| 0 <= k < |ps| && t[ps[k].i][ps[k].j].sameSign == sameSign && f == t[ps[k].i][ps[k].j].fill;
    p := ps[k];
    assert p in ps;
    assert t[p.i][p.j] == VerdictOf(lib, ev, p, cent, applyCoulomb, syst);
  }

  /** A kept pair's call is in the sink of its sign. */
  lemma EventFillComplete(lib: MathLib, ev: EventTracks, cent: int, applyCoulomb: bool, syst: int, p: Pair)
    requires ev.WellFormed() && InRange(|ev.tracks|, p) && !IsSplitPair(lib, ev.tracks[p.i], ev.tracks[p.j])
    ensures var t := Verdicts(lib, ev, cent, applyCoulomb, syst);
      PairFill(ev.tracks[p.i], ev.tracks[p.j], cent, PairWeight(lib, ev, p, applyCoulomb, syst))
        in SinkFills(t, AllPairs(t), SignSink(IsSameSign(ev, p)))
  {
    var t := Verdicts(lib, ev, cent, applyCoulomb, syst);
    var ps := AllPairs(t);
    assert AllInRange(|t|, ps);
    PairsBeforeExactly(t, |t|);
    SignFillsComplete(t, ps);
    assert t[p.i][p.j] == VerdictOf(lib, ev, p, cent, applyCoulomb, syst);
    assert p in ps;
    var k :| 0 <= k < |ps| && ps[k] == p;
  }

  /** When the sinks are one object, it receives one call per pair, in pair order. */
  lemma {:induction false} SharedFillsInPairOrder(t: seq<seq<Verdict>>, ps: seq<Pair>)
    requires IsTable(t) && AllInRange(|t|, ps)
    ensures |SinkFills(t, ps, SharedSink)| == |ps|
    ensures forall k :: 0 <= k < |ps| ==> SinkFills(t, ps, SharedSink)[k] == t[ps[k].i][ps[k].j].fill
  {
    if ps != [] {
      var init := ps[..|ps| - 1];
      assert AllInRange(|t|, init);
      SharedFillsInPairOrder(t, init);
      assert forall k :: 0 <= k < |init| ==> ps[k] == init[k];
    }
  }

  /** Visiting one more pair appends its call, when the sink receives one, to the sink's calls. */
  lemma SinkFillsSnoc(t: seq<seq<Verdict>>, ps: seq<Pair>, p: Pair, sink: Sink)
    ensures SinkFills(t, ps + [p], sink) == SinkFills(t, ps, sink) + Delivered(t, sink, p)
  {
    assert (ps + [p])[..|ps|] == ps;
  }

  /**
   * The calls a sink holds when the loop is about to visit (i, j) are the calls
   * SinkFills assigns it for the pairs visited by then.
   */
  lemma {:induction false} FillsUpToVisited(t: seq<seq<Verdict>>, sink: Sink, i: int, j: int)
    requires IsTable(t) && 0 <= i < |t| && i < j <= |t|
    ensures FillsUpTo(t, sink, i, j) == SinkFills(t, PairsUpTo(t, i, j), sink)
    decreases i, j
  {
    if j == i + 1 {
      FillsBeforeVisited(t, sink, i);
      VisitedRowStart(t, sink, i, j);
    } else {
      FillsUpToVisited(t, sink, i, j - 1);
      VisitedStep(t, sink, i, j);
    }
  }

  /** The start of row i: the relation of FillsBeforeVisited carries over to (i, i + 1). */
  lemma VisitedRowStart(t: seq<seq<Verdict>>, sink: Sink, i: int, j: int)
    requires IsTable(t) && 0 <= i < |t| && j == i + 1
    requires FillsBefore(t, sink, i) == SinkFills(t, PairsBefore(t, i), sink)
    ensures FillsUpTo(t, sink, i, j) == SinkFills(t, PairsUpTo(t, i, j), sink)
  {
    assert PairsUpTo(t, i, j) == PairsBefore(t, i) + [] == PairsBefore(t, i);
  }

  /** One step of FillsUpToVisited: the relation survives the visit of (i, j - 1). */
  lemma VisitedStep(t: seq<seq<Verdict>>, sink: Sink, i: int, j: int)
    requires IsTable(t) && 0 <= i && i + 1 < j <= |t|
    requires FillsUpTo(t, sink, i, j - 1) == SinkFills(t, PairsUpTo(t, i, j - 1), sink)
    ensures FillsUpTo(t, sink, i, j) == SinkFills(t, PairsUpTo(t, i, j), sink)
  {
    PairsUpToStep(t, i, j);
    var ps, p := PairsUpTo(t, i, j - 1), Pair(i, j - 1);
    if t[i][j - 1].kept {
      SinkFillsSnoc(t, ps, p, sink);
    } else {
      assert ps + [] == ps;
      assert FillsUpTo(t, sink, i, j) == FillsUpTo(t, sink, i, j - 1) + [];
    }
  }

  /** Visiting (i, j - 1) appends it to the visited pairs when it is kept. */
  lemma PairsUpToStep(t: seq<seq<Verdict>>, i: int, j: int)
    requires IsTable(t) && 0 <= i && i + 1 < j <= |t|
    ensures PairsUpTo(t, i, j) == PairsUpTo(t, i, j - 1) + (if t[i][j - 1].kept then [Pair(i, j - 1)] else [])
  {
    var before, row := PairsBefore(t, i), RowPairs(t, i, j - 1);
    var step := if t[i][j - 1].kept then [Pair(i, j - 1)] else [];
    assert RowPairs(t, i, j) == row + step;
    assert before + (row + step) == (before + row) + step;
  }

  /** The calls a sink holds when the loop starts row i are SinkFills of the pairs of rows 0..i-1. */
  lemma {:induction false} FillsBeforeVisited(t: seq<seq<Verdict>>, sink: Sink, i: int)
    requires IsTable(t) && 0 <= i <= |t|
    ensures FillsBefore(t, sink, i) == SinkFills(t, PairsBefore(t, i), sink)
    decreases i, 0
  {
    if i > 0 {
      FillsUpToVisited(t, sink, i - 1, |t|);
      VisitedRowEnd(t, sink, i);
    }
  }

  /** The end of row i - 1: the relation of FillsUpToVisited carries over to the start of row i. */
  lemma VisitedRowEnd(t: seq<seq<Verdict>>, sink: Sink, i: int)
    requires IsTable(t) && 0 < i <= |t|
    requires FillsUpTo(t, sink, i - 1, |t|) == SinkFills(t, PairsUpTo(t, i - 1, |t|), sink)
    ensures FillsBefore(t, sink, i) == SinkFills(t, PairsBefore(t, i), sink)
  {
    assert PairsUpTo(t, i - 1, |t|) == PairsBefore(t, i);
  }

  /**
   * Without the Coulomb correction, or below the qinv floor, the pair weight is the
   * product of the track weights; above the floor it is raised for same-sign pairs
   * and lowered for opposite-sign pairs (for a positive product).
   */
  lemma PairWeightBounds(lib: MathLib, ev: EventTracks, p: Pair, applyCoulomb: bool, syst: int)
    requires ev.WellFormed() && InRange(|ev.tracks|, p)
    ensures var w, qinv := ev.weights[p.i] * ev.weights[p.j], CalculateQinv(lib, ev.tracks[p.i], ev.tracks[p.j]);
      && (!applyCoulomb || qinv < QINV_FLOOR ==> PairWeight(lib, ev, p, applyCoulomb, syst) == w)
      && (applyCoulomb && qinv >= QINV_FLOOR && ExpLaw(lib) && w > 0.0 ==>
            (IsSameSign(ev, p) ==> PairWeight(lib, ev, p, applyCoulomb, syst) > w) &&
            (!IsSameSign(ev, p) ==> PairWeight(lib, ev, p, applyCoulomb, syst) < w))
  {
    var w, qinv := ev.weights[p.i] * ev.weights[p.j], CalculateQinv(lib, ev.tracks[p.i], ev.tracks[p.j]);
    if applyCoulomb {
      var f := CoulombFactor(lib, ev, p, syst);
      assert PairWeight(lib, ev, p, applyCoulomb, syst) == w * f;
      if qinv < QINV_FLOOR {
        CoulombBelowFloorIsOne(lib, qinv, syst);
        assert f == 1.0;
      } else if ExpLaw(lib) && w > 0.0 {
        CoulombWeightsAboveFloor(lib, qinv, syst);
        if IsSameSign(ev, p) {
          assert f > 1.0;
          ScaledAway(w, f);
        } else {
          assert f < 1.0;
          ScaledAway(w, f);
        }
      }
    }
  }

  /** A positive quantity times a factor moves up when the factor exceeds 1, down when below. */
  lemma ScaledAway(w: real, f: real)
    requires w > 0.0
    ensures f > 1.0 ==> w * f > w
    ensures f < 1.0 ==> w * f < w
  {
    assert w * f - w == w * (f - 1.0);
  }
}
