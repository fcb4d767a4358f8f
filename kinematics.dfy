/**
 * Pair kinematics, the Gamow/Coulomb weight and the split-pair veto of
 * functions_definition.h, over exact reals.
 *
 * The header is written against a generic Lorentz-vector type and calls libm's
 * sqrt, exp and hypot. Those numerics are not part of the model: they are the
 * fields of a MathLib value passed to every function that needs them, and the
 * lemmas state the only laws they rely on (SqrtSign, SqrtSquares, ExpLaw).
 */
module Kinematics {

  // Constants of the header.
  const PI_MASS: real := 0.13957039       // charged-pion mass, GeV/c^2
  const COS_CUT: real := 0.99996          // split-pair opening-angle cut
  const DPT_CUT: real := 0.04             // split-pair pT-difference cut, GeV/c
  const ALPHA_EM: real := 1.0 / 137.035999
  const M_PI: real := 3.14159265358979323846
  const QINV_FLOOR: real := 0.000001      // below this qinv the Coulomb weight is 1

  /** A four-momentum as the vector class exposes it: Px, Py, Pz and E. */
  datatype LorentzVec = LorentzVec(px: real, py: real, pz: real, e: real)

  /** The foreign numerics: libm's sqrt, exp, hypot, and the vector class's Eta(). */
  datatype MathLib = MathLib(
    sqrt: real -> real,
    exp: real -> real,
    hypot: (real, real) -> real,
    eta: LorentzVec -> real)

  // Every call into the library goes through one of these four functions.
  function Sqrt(lib: MathLib, x: real): real { lib.sqrt(x) }
  function Exp(lib: MathLib, x: real): real { lib.exp(x) }
  function Hypot(lib: MathLib, a: real, b: real): real { lib.hypot(a, b) }
  function Eta(lib: MathLib, v: LorentzVec): real { lib.eta(v) }

  /** sqrt is 0 at 0 and positive on positive arguments. */
  ghost predicate SqrtSign(lib: MathLib) {
    forall x: real :: (x == 0.0 ==> Sqrt(lib, x) == 0.0) && (0.0 < x ==> 0.0 < Sqrt(lib, x))
  }

  /** sqrt squares back to its non-negative argument. */
  ghost predicate SqrtSquares(lib: MathLib) {
    forall x: real :: 0.0 <= x ==> Sqrt(lib, x) * Sqrt(lib, x) == x
  }

  /** The exponential lies strictly above its tangent at 0 everywhere but at 0. */
  ghost predicate ExpLaw(lib: MathLib) {
    forall x: real :: x != 0.0 ==> Exp(lib, x) > 1.0 + x
  }

  function Abs(x: real): real { if x < 0.0 then -x else x }

  // ---------------------------------------------------------------- vectors

  function Add(a: LorentzVec, b: LorentzVec): LorentzVec {
    LorentzVec(a.px + b.px, a.py + b.py, a.pz + b.pz, a.e + b.e)
  }

  /** Squared invariant mass, M2(). */
  function M2(v: LorentzVec): real {
    v.e * v.e - v.px * v.px - v.py * v.py - v.pz * v.pz
  }

  function PtSquared(v: LorentzVec): real { v.px * v.px + v.py * v.py }
  function PSquared(v: LorentzVec): real { v.px * v.px + v.py * v.py + v.pz * v.pz }

  /** Transverse momentum, Pt(). */
  function Pt(lib: MathLib, v: LorentzVec): real {
    Sqrt(lib, PtSquared(v))
  }

  /** Momentum magnitude, P(). */
  function P(lib: MathLib, v: LorentzVec): real {
    Sqrt(lib, PSquared(v))
  }

  /** The three-vector used for the transverse decomposition. */
  datatype Vec3 = Vec3(x: real, y: real, z: real)

  function Dot(a: Vec3, b: Vec3): real { a.x * b.x + a.y * b.y + a.z * b.z }
  function Mag2(a: Vec3): real { Dot(a, a) }
  function Scale(k: real, a: Vec3): Vec3 { Vec3(k * a.x, k * a.y, k * a.z) }
  function Sub(a: Vec3, b: Vec3): Vec3 { Vec3(a.x - b.x, a.y - b.y, a.z - b.z) }

  /** The vector divided by its length; a zero vector is returned unchanged. */
  function Unit(lib: MathLib, a: Vec3): Vec3
    requires SqrtSign(lib)
  {
    var tot2 := Mag2(a);
    if tot2 > 0.0 then Scale(1.0 / Sqrt(lib, tot2), a) else a
  }

  /** Transverse momentum difference qT and half-sum kT of the pair. */
  function QT(p1: LorentzVec, p2: LorentzVec): Vec3 { Vec3(p1.px - p2.px, p1.py - p2.py, 0.0) }
  function KT(p1: LorentzVec, p2: LorentzVec): Vec3 { Vec3((p1.px + p2.px) / 2.0, (p1.py + p2.py) / 2.0, 0.0) }

  // ------------------------------------------------------- pair observables

  /** M^2 of the pair minus its threshold value 4 m_pi^2. */
  function QinvSquared(p1: LorentzVec, p2: LorentzVec): real {
    M2(Add(p1, p2)) - 4.0 * PI_MASS * PI_MASS
  }

  /** CalculateQinv: the signed square root of QinvSquared. */
  function CalculateQinv(lib: MathLib, p1: LorentzVec, p2: LorentzVec): real {
    var q := QinvSquared(p1, p2);
    if q > 0.0 then Sqrt(lib, q) else -Sqrt(lib, -q)
  }

  /** CalculateQlongLCMS: |2 (pz1 E2 - pz2 E1)| / hypot(E1 + E2, pz1 + pz2), or 0. */
  function CalculateQlongLCMS(lib: MathLib, p1: LorentzVec, p2: LorentzVec): real {
    var num := 2.0 * (p1.pz * p2.e - p2.pz * p1.e);
    var den := Hypot(lib, p1.e + p2.e, p1.pz + p2.pz);
    if den > 0.0 then Abs(num / den) else 0.0
  }

  /** CalculateQout: projection of qT on the direction of kT. */
  function CalculateQout(lib: MathLib, p1: LorentzVec, p2: LorentzVec): real
    requires SqrtSign(lib)
  {
    Dot(QT(p1, p2), Unit(lib, KT(p1, p2)))
  }

  /** What is left of qT after removing its component along kT. */
  function QsideVector(lib: MathLib, p1: LorentzVec, p2: LorentzVec): Vec3
    requires SqrtSign(lib)
  {
    var u := Unit(lib, KT(p1, p2));
    Sub(QT(p1, p2), Scale(Dot(QT(p1, p2), u), u))
  }

  /** CalculateQside: the length of QsideVector. */
  function CalculateQside(lib: MathLib, p1: LorentzVec, p2: LorentzVec): real
    requires SqrtSign(lib)
  {
    Sqrt(lib, Mag2(QsideVector(lib, p1, p2)))
  }

  // ------------------------------------------------------------ Coulomb

  /** The weight factor 1 + 0.15, 1 - 0.15 or 1 chosen by syst in both Gamow functions. */
  function CoulombScale(syst: int): real {
    1.0 + (if syst == 1 then 0.15 else if syst == 2 then -0.15 else 0.0)
  }

  /** The Gamow parameter x = 2 pi alpha m_pi / qinv. */
  function GamowX(qinv: real): (x: real)
    requires qinv >= QINV_FLOOR
    ensures x > 0.0
  {
    2.0 * M_PI * ALPHA_EM * PI_MASS / qinv
  }

  /** CoulombSSWeight: scale * ((e^x - 1)/x - 1) + 1, or 1 below the qinv floor. */
  function CoulombSSWeight(lib: MathLib, qinv: real, syst: int): real {
    if qinv < QINV_FLOOR then 1.0
    else
      var x := GamowX(qinv);
      CoulombScale(syst) * ((Exp(lib, x) - 1.0) / x - 1.0) + 1.0
  }

  /** CoulombOSWeight: scale * ((1 - e^-x)/x - 1) + 1, or 1 below the qinv floor. */
  function CoulombOSWeight(lib: MathLib, qinv: real, syst: int): real {
    if qinv < QINV_FLOOR then 1.0
    else
      var x := GamowX(qinv);
      CoulombScale(syst) * ((1.0 - Exp(lib, -x)) / x - 1.0) + 1.0
  }

  // ---------------------------------------------------------- split pairs

  /**
   * IsSplitPair: cos(angle) > COS_CUT and |pt1 - pt2| < DPT_CUT. When a momentum
   * is zero the C++ cosine is 0/0, a NaN, and the comparison is false.
   */
  predicate IsSplitPair(lib: MathLib, p1: LorentzVec, p2: LorentzVec) {
    var den := P(lib, p1) * P(lib, p2);
    den != 0.0 &&
    (p1.px * p2.px + p1.py * p2.py + p1.pz * p2.pz) / den > COS_CUT &&
    Abs(Pt(lib, p1) - Pt(lib, p2)) < DPT_CUT
  }

  // ------------------------------------------------------- track counting

  /** HBTTrackCut with the header's default member values. */
  datatype HBTTrackCut = HBTTrackCut(
    minPt: real, maxEta: real, minHits: int, minPixelHits: int,
    maxDcaXY: real, maxDcaZ: real, maxChi2: real, requireHighPurity: bool)

  const DefaultTrackCut := HBTTrackCut(0.15, 2.4, 11, 2, 3.0, 3.0, 5.0, true)

  /** The predicate CountHBTTracks counts with. */
  predicate PassesHBTCut(lib: MathLib, trk: LorentzVec, cuts: HBTTrackCut) {
    Pt(lib, trk) > cuts.minPt && Abs(Eta(lib, trk)) < cuts.maxEta
  }

  /** CountHBTTracks: how many tracks pass the pt and eta cuts. */
  function CountHBTTracks(lib: MathLib, tracks: seq<LorentzVec>, cuts: HBTTrackCut): (r: nat)
    ensures r <= |tracks|
    ensures r == |tracks| <==> forall k :: 0 <= k < |tracks| ==> PassesHBTCut(lib, tracks[k], cuts)
    ensures r == 0 <==> forall k :: 0 <= k < |tracks| ==> !PassesHBTCut(lib, tracks[k], cuts)
  {
    if |tracks| == 0 then 0
    else
      var init := tracks[..|tracks| - 1];
      var rest := CountHBTTracks(lib, init, cuts);
      assert forall k :: 0 <= k < |init| ==> init[k] == tracks[k];
      rest + (if PassesHBTCut(lib, tracks[|tracks| - 1], cuts) then 1 else 0)
  }

  /** The positions below n whose tracks pass the cuts, in increasing order. */
  function HBTPassingPositions(lib: MathLib, tracks: seq<LorentzVec>, cuts: HBTTrackCut, n: nat): (r: seq<nat>)
    requires n <= |tracks|
    ensures |r| <= n
    ensures forall k :: 0 <= k < |r| ==> r[k] < n
  {
    if n == 0 then []
    else
      HBTPassingPositions(lib, tracks, cuts, n - 1)
      + (if PassesHBTCut(lib, tracks[n - 1], cuts) then [n - 1] else [])
  }

  /** HBTPassingPositions lists exactly the passing positions below n, each once, in increasing order. */
  lemma {:induction false} PassingPositionsExactly(lib: MathLib, tracks: seq<LorentzVec>, cuts: HBTTrackCut, n: nat)
    requires n <= |tracks|
    ensures forall k :: k in HBTPassingPositions(lib, tracks, cuts, n) <==>
      0 <= k < n && PassesHBTCut(lib, tracks[k], cuts)
    ensures forall a, b :: 0 <= a < b < |HBTPassingPositions(lib, tracks, cuts, n)| ==>
      HBTPassingPositions(lib, tracks, cuts, n)[a] < HBTPassingPositions(lib, tracks, cuts, n)[b]
  {
    if n > 0 {
      PassingPositionsExactly(lib, tracks, cuts, n - 1);
    }
  }

  /** The count of the first n tracks is the number of passing positions below n. */
  lemma {:induction false} CountPrefixIsPositions(lib: MathLib, tracks: seq<LorentzVec>, cuts: HBTTrackCut, n: nat)
    requires n <= |tracks|
    ensures CountHBTTracks(lib, tracks[..n], cuts) == |HBTPassingPositions(lib, tracks, cuts, n)|
  {
    if n > 0 {
      CountPrefixIsPositions(lib, tracks, cuts, n - 1);
      var pre := tracks[..n];
      assert pre[..|pre| - 1] == tracks[..n - 1];
      assert pre[|pre| - 1] == tracks[n - 1];
    }
  }

  /**
   * CountHBTTracks is the number of distinct positions whose track passes
   * the pt and eta cuts, as count_if counts them.
   */
  lemma CountIsNumberOfPassingTracks(lib: MathLib, tracks: seq<LorentzVec>, cuts: HBTTrackCut)
    ensures var ps := HBTPassingPositions(lib, tracks, cuts, |tracks|);
      && CountHBTTracks(lib, tracks, cuts) == |ps|
      && (forall k :: k in ps <==> 0 <= k < |tracks| && PassesHBTCut(lib, tracks[k], cuts))
      && (forall a, b :: 0 <= a < b < |ps| ==> ps[a] < ps[b])
  {
    CountPrefixIsPositions(lib, tracks, cuts, |tracks|);
    assert tracks[..|tracks|] == tracks;
    PassingPositionsExactly(lib, tracks, cuts, |tracks|);
  }

  // ------------------------------------------------------------ utilities

  /** InvertMomentum: (-px, -py, -pz, E). */
  function InvertMomentum(v: LorentzVec): LorentzVec {
    LorentzVec(-v.px, -v.py, -v.pz, v.e)
  }

  /** RotateXY: (-x, -y, z, t), a rotation by pi about the beam axis. */
  function RotateXY(v: LorentzVec): LorentzVec {
    LorentzVec(-v.px, -v.py, v.pz, v.e)
  }

  // ===================================================================
  // Lemmas
  // ===================================================================

  /** Qinv is a signed root: its sign is that of QinvSquared, its square is |QinvSquared|. */
  lemma QinvIsSignedRoot(lib: MathLib, p1: LorentzVec, p2: LorentzVec)
    requires SqrtSign(lib) && SqrtSquares(lib)
    ensures var q, r := QinvSquared(p1, p2), CalculateQinv(lib, p1, p2);
      (r > 0.0 <==> q > 0.0) && (r < 0.0 <==> q < 0.0) && r * r == Abs(q)
  {
    var q := QinvSquared(p1, p2);
    if q > 0.0 {
      assert Sqrt(lib, q) > 0.0;
    } else {
      assert Sqrt(lib, -q) >= 0.0;
    }
  }

  /** Qinv does not depend on the order of the pair. */
  lemma QinvSymmetric(lib: MathLib, p1: LorentzVec, p2: LorentzVec)
    ensures CalculateQinv(lib, p1, p2) == CalculateQinv(lib, p2, p1)
  {
    assert Add(p1, p2) == Add(p2, p1);
  }

  /** Qinv, rotated by pi about the beam or with both momenta inverted, is unchanged. */
  lemma QinvInvariantUnderReflections(lib: MathLib, p1: LorentzVec, p2: LorentzVec)
    ensures CalculateQinv(lib, RotateXY(p1), RotateXY(p2)) == CalculateQinv(lib, p1, p2)
    ensures CalculateQinv(lib, InvertMomentum(p1), InvertMomentum(p2)) == CalculateQinv(lib, p1, p2)
  {
    assert M2(Add(RotateXY(p1), RotateXY(p2))) == M2(Add(p1, p2));
    assert M2(Add(InvertMomentum(p1), InvertMomentum(p2))) == M2(Add(p1, p2));
  }

  /** A pion paired with itself sits exactly at threshold: Qinv is 0. */
  lemma QinvOfIdenticalPions(lib: MathLib, p: LorentzVec)
    requires SqrtSign(lib)
    requires M2(p) == PI_MASS * PI_MASS
    ensures CalculateQinv(lib, p, p) == 0.0
  {
    assert M2(Add(p, p)) == 4.0 * M2(p);
    assert QinvSquared(p, p) == 0.0;
    assert Sqrt(lib, -QinvSquared(p, p)) == 0.0;
  }

  /** q-long is never negative, falls back to 0 on a non-positive denominator, and is symmetric. */
  lemma QlongProperties(lib: MathLib, p1: LorentzVec, p2: LorentzVec)
    ensures CalculateQlongLCMS(lib, p1, p2) >= 0.0
    ensures Hypot(lib, p1.e + p2.e, p1.pz + p2.pz) <= 0.0 ==> CalculateQlongLCMS(lib, p1, p2) == 0.0
    ensures CalculateQlongLCMS(lib, p1, p2) == CalculateQlongLCMS(lib, p2, p1)
  {
    var den := Hypot(lib, p1.e + p2.e, p1.pz + p2.pz);
    assert Hypot(lib, p2.e + p1.e, p2.pz + p1.pz) == den;
    if den > 0.0 {
      var num := 2.0 * (p1.pz * p2.e - p2.pz * p1.e);
      assert 2.0 * (p2.pz * p1.e - p1.pz * p2.e) == -num;
      assert (-num) / den == -(num / den);
    }
  }

  /** q-long of a pion with itself is 0. */
  lemma QlongOfIdenticalPions(lib: MathLib, p: LorentzVec)
    ensures CalculateQlongLCMS(lib, p, p) == 0.0
  {
  }

  /** Swapping the pair negates q-out and leaves q-side unchanged; q-side is never negative. */
  lemma QoutQsideUnderSwap(lib: MathLib, p1: LorentzVec, p2: LorentzVec)
    requires SqrtSign(lib)
    ensures CalculateQout(lib, p2, p1) == -CalculateQout(lib, p1, p2)
    ensures CalculateQside(lib, p2, p1) == CalculateQside(lib, p1, p2)
    ensures CalculateQside(lib, p1, p2) >= 0.0
  {
    var u := Unit(lib, KT(p1, p2));
    assert KT(p2, p1) == KT(p1, p2);
    var qt := QT(p1, p2);
    assert QT(p2, p1) == Scale(-1.0, qt);
    var d := Dot(qt, u);
    assert Dot(Scale(-1.0, qt), u) == -d;
    var w := Sub(qt, Scale(d, u));
    assert Sub(Scale(-1.0, qt), Scale(-d, u)) == Scale(-1.0, w);
    assert Mag2(Scale(-1.0, w)) == Mag2(w);
    assert Mag2(w) >= 0.0;
  }

  /** The transverse remainder of a pion with itself is the zero vector. */
  lemma QsideVectorOfIdenticalPions(lib: MathLib, p: LorentzVec)
    requires SqrtSign(lib)
    ensures QsideVector(lib, p, p) == Vec3(0.0, 0.0, 0.0)
  {
    var u := Unit(lib, KT(p, p));
    assert QT(p, p) == Vec3(0.0, 0.0, 0.0);
    assert Dot(QT(p, p), u) == 0.0;
  }

  /** q-out of a pion with itself is 0. */
  lemma QoutOfIdenticalPions(lib: MathLib, p: LorentzVec)
    requires SqrtSign(lib)
    ensures CalculateQout(lib, p, p) == 0.0
  {
    assert QT(p, p) == Vec3(0.0, 0.0, 0.0);
  }

  /** q-side of a pion with itself is 0. */
  lemma QsideOfIdenticalPions(lib: MathLib, p: LorentzVec)
    requires SqrtSign(lib)
    ensures CalculateQside(lib, p, p) == 0.0
  {
    QsideVectorOfIdenticalPions(lib, p);
    assert Mag2(QsideVector(lib, p, p)) == 0.0;
  }

  /** q-out and q-side decompose the transverse difference: qout^2 + qside^2 == |qT|^2 when kT is non-zero. */
  lemma QoutQsideDecomposeQT(lib: MathLib, p1: LorentzVec, p2: LorentzVec)
    requires SqrtSign(lib) && SqrtSquares(lib)
    requires Mag2(KT(p1, p2)) > 0.0
    ensures var qo, qs := CalculateQout(lib, p1, p2), CalculateQside(lib, p1, p2);
      qo * qo + qs * qs == Mag2(QT(p1, p2))
  {
    var u := Unit(lib, KT(p1, p2));
    var qt := QT(p1, p2);
    var d := Dot(qt, u);
    var w := Sub(qt, Scale(d, u));
    assert Mag2(u) == 1.0;
    assert Mag2(w) == Mag2(qt) - 2.0 * d * Dot(qt, u) + d * d * Mag2(u);
    assert Mag2(w) == Mag2(qt) - d * d;
    var s := Sqrt(lib, Mag2(w));
    assert s * s == Mag2(w);
  }

  /** The Coulomb weight is exactly 1 below the qinv floor, negative qinv included. */
  lemma CoulombBelowFloorIsOne(lib: MathLib, qinv: real, syst: int)
    requires qinv < QINV_FLOOR
    ensures CoulombSSWeight(lib, qinv, syst) == 1.0
    ensures CoulombOSWeight(lib, qinv, syst) == 1.0
  {
  }

  /** The scale is 1.15 for syst 1, 0.85 for syst 2, and 1 for every other syst. */
  lemma CoulombScaleDispatch(syst: int)
    ensures syst == 1 ==> CoulombScale(syst) == 1.15
    ensures syst == 2 ==> CoulombScale(syst) == 0.85
    ensures syst != 1 && syst != 2 ==> CoulombScale(syst) == 1.0
  {
  }

  /** A systematic variant scales the nominal correction (weight - 1) by its factor, in both functions. */
  lemma CoulombVariantScalesCorrection(lib: MathLib, qinv: real, syst: int)
    ensures CoulombSSWeight(lib, qinv, syst) - 1.0 == CoulombScale(syst) * (CoulombSSWeight(lib, qinv, 0) - 1.0)
    ensures CoulombOSWeight(lib, qinv, syst) - 1.0 == CoulombScale(syst) * (CoulombOSWeight(lib, qinv, 0) - 1.0)
  {
  }

  /** Above the floor the same-sign weight exceeds 1 and the opposite-sign weight is below 1. */
  lemma CoulombWeightsAboveFloor(lib: MathLib, qinv: real, syst: int)
    requires ExpLaw(lib)
    requires qinv >= QINV_FLOOR
    ensures CoulombSSWeight(lib, qinv, syst) > 1.0
    ensures CoulombOSWeight(lib, qinv, syst) < 1.0
  {
    var x := GamowX(qinv);
    var k := CoulombScale(syst);
    assert k > 0.0;
    var ep, em := Exp(lib, x), Exp(lib, -x);
    assert ep - 1.0 > x;
    assert (ep - 1.0) / x - 1.0 == (ep - 1.0 - x) / x;
    assert (ep - 1.0 - x) / x > 0.0;
    assert em > 1.0 - x;
    assert (1.0 - em) / x - 1.0 == (1.0 - em - x) / x;
    assert (1.0 - em - x) / x < 0.0;
  }

  /** IsSplitPair does not depend on the order of the pair. */
  lemma IsSplitPairSymmetric(lib: MathLib, p1: LorentzVec, p2: LorentzVec)
    ensures IsSplitPair(lib, p1, p2) <==> IsSplitPair(lib, p2, p1)
  {
    assert P(lib, p1) * P(lib, p2) == P(lib, p2) * P(lib, p1);
    assert p1.px * p2.px + p1.py * p2.py + p1.pz * p2.pz == p2.px * p1.px + p2.py * p1.py + p2.pz * p1.pz;
  }

  /** A non-zero track paired with an exact copy of itself is always vetoed as split. */
  lemma DuplicateTrackIsSplit(lib: MathLib, p: LorentzVec)
    requires SqrtSign(lib) && SqrtSquares(lib)
    requires PSquared(p) > 0.0
    ensures IsSplitPair(lib, p, p)
  {
    var m := P(lib, p);
    assert m > 0.0 && m * m == PSquared(p);
    assert p.px * p.px + p.py * p.py + p.pz * p.pz == m * m;
    assert (p.px * p.px + p.py * p.py + p.pz * p.pz) / (m * m) == 1.0;
  }

  /** Inverting and rotating are involutions and keep E, |p| and pT. */
  lemma ReflectionsAreInvolutions(lib: MathLib, v: LorentzVec)
    ensures InvertMomentum(InvertMomentum(v)) == v
    ensures RotateXY(RotateXY(v)) == v
    ensures InvertMomentum(v).e == v.e && P(lib, InvertMomentum(v)) == P(lib, v)
    ensures Pt(lib, RotateXY(v)) == Pt(lib, v) && RotateXY(v).pz == v.pz
  {
    assert PSquared(InvertMomentum(v)) == PSquared(v);
    assert PtSquared(RotateXY(v)) == PtSquared(v);
  }
}
