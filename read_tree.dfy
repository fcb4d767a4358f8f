/**
 * The event record and the track-selection loop of read_tree.h.
 *
 * The ROOT branch set-up and GetEntry are not modelled: the entry read from the
 * tree is given as a TreeEntry value, and a null tree pointer as None. The
 * selection copies, in order, every raw track that passes all quality cuts into
 * the event's fixed-capacity parallel arrays, until the input or the capacity
 * runs out.
 */
module TreeReader {
  import opened Wrappers

  const MAX_HBT_TRACKS: int := 30000
  const MIN_HBT_PT: real := 0.15
  const MAX_HBT_ETA: real := 2.4

  /** HBTQualityCuts, with the header's default member values in DefaultQualityCuts. */
  datatype HBTQualityCuts = HBTQualityCuts(
    requireHighPurity: bool, minPixelHits: int, minTotalHits: int,
    maxDcaXY: real, maxDcaZ: real, maxChi2: real)

  const DefaultQualityCuts := HBTQualityCuts(true, 2, 11, 3.0, 3.0, 5.0)

  /** One track as the tree's branches hold it. */
  datatype RawTrack = RawTrack(
    pt: real, eta: real, phi: real, dcaXY: real, dcaZ: real,
    nHits: int, pixHits: int, highPurity: bool, chi2: real, charge: int)

  /** The values GetEntry(0) loads: event branches, the MC weight, and nTrk tracks. */
  datatype TreeEntry = TreeEntry(vz: real, hiBin: int, weight: real, tracks: seq<RawTrack>)

  /** What one slot of the event's parallel arrays holds. */
  datatype Slot = Slot(pt: real, eta: real, phi: real, dcaXY: real, dcaZ: real, charge: int, good: bool)

  /** The slot a selected track is stored as: its copied values, marked good. */
  function StoredSlot(t: RawTrack): Slot {
    Slot(t.pt, t.eta, t.phi, t.dcaXY, t.dcaZ, t.charge, true)
  }

  function Abs(x: real): real { if x < 0.0 then -x else x }

  /** A track survives every `continue` of the selection loop. */
  predicate PassesQuality(t: RawTrack, cuts: HBTQualityCuts) {
    && t.pt >= MIN_HBT_PT
    && Abs(t.eta) <= MAX_HBT_ETA
    && (cuts.requireHighPurity ==> t.highPurity)
    && t.pixHits >= cuts.minPixelHits
    && t.nHits >= cuts.minTotalHits
    && Abs(t.dcaXY) <= cuts.maxDcaXY
    && Abs(t.dcaZ) <= cuts.maxDcaZ
    && t.chi2 <= cuts.maxChi2
  }

  /** The indices below n of the tracks that pass, in increasing order. */
  function PassingIndices(ts: seq<RawTrack>, cuts: HBTQualityCuts, n: int): (r: seq<int>)
    requires 0 <= n <= |ts|
    ensures |r| <= n
    ensures forall k :: 0 <= k < |r| ==> 0 <= r[k] < n
  {
    if n == 0 then []
    else PassingIndices(ts, cuts, n - 1) + (if PassesQuality(ts[n - 1], cuts) then [n - 1] else [])
  }

  function Min(a: int, b: int): int { if a < b then a else b }

  /** The tracks the event ends up holding: the first MAX_HBT_TRACKS passing tracks, in input order. */
  function Selection(ts: seq<RawTrack>, cuts: HBTQualityCuts): (r: seq<RawTrack>)
    ensures |r| <= MAX_HBT_TRACKS
  {
    var idx := PassingIndices(ts, cuts, |ts|);
    var m := Min(|idx|, MAX_HBT_TRACKS);
    seq(m, k requires 0 <= k < m => ts[idx[k]])
  }

  /** HBTEvent: event information, parallel track arrays of fixed capacity, and MC truth vectors. */
  class HBTEvent {
    var vz: real
    var hiBin: int
    var weight: real
    var nTracks: int
    const pt: array<real>
    const eta: array<real>
    const phi: array<real>
    const dcaXY: array<real>
    const dcaZ: array<real>
    const charge: array<int>
    const goodTrack: array<bool>
    var isMC: bool
    var genPt: seq<real>
    var genEta: seq<real>
    var genPhi: seq<real>

    /** Every array has the full capacity, no two arrays are one, and nTracks is within it. */
    ghost predicate Valid()
      reads this
    {
      && pt.Length == MAX_HBT_TRACKS && eta.Length == MAX_HBT_TRACKS && phi.Length == MAX_HBT_TRACKS
      && dcaXY.Length == MAX_HBT_TRACKS && dcaZ.Length == MAX_HBT_TRACKS
      && charge.Length == MAX_HBT_TRACKS && goodTrack.Length == MAX_HBT_TRACKS
      && pt != eta && pt != phi && pt != dcaXY && pt != dcaZ
      && eta != phi && eta != dcaXY && eta != dcaZ
      && phi != dcaXY && phi != dcaZ
      && dcaXY != dcaZ
      && 0 <= nTracks <= MAX_HBT_TRACKS
    }

    /** The values at index k of the parallel arrays. */
    ghost function SlotAt(k: int): Slot
      requires Valid() && 0 <= k < MAX_HBT_TRACKS
      reads this, pt, eta, phi, dcaXY, dcaZ, charge, goodTrack
    {
      Slot(pt[k], eta[k], phi[k], dcaXY[k], dcaZ[k], charge[k], goodTrack[k])
    }

    /** The member initialisers: vz 0, hiBin -1, weight 1, no tracks, not MC. */
    constructor ()
      ensures Valid()
      ensures vz == 0.0 && hiBin == -1 && weight == 1.0 && nTracks == 0 && !isMC
      ensures genPt == [] && genEta == [] && genPhi == []
      ensures fresh(pt) && fresh(eta) && fresh(phi) && fresh(dcaXY) && fresh(dcaZ) && fresh(charge) && fresh(goodTrack)
    {
      vz, hiBin, weight, nTracks := 0.0, -1, 1.0, 0;
      pt := new real[MAX_HBT_TRACKS];
      eta := new real[MAX_HBT_TRACKS];
      phi := new real[MAX_HBT_TRACKS];
      dcaXY := new real[MAX_HBT_TRACKS];
      dcaZ := new real[MAX_HBT_TRACKS];
      charge := new int[MAX_HBT_TRACKS];
      goodTrack := new bool[MAX_HBT_TRACKS];
      isMC := false;
      genPt, genEta, genPhi := [], [], [];
    }

    /** clear(): no tracks; the MC truth vectors are emptied only when isMC is set. */
    method Clear()
      requires Valid()
      modifies this
      ensures Valid()
      ensures nTracks == 0
      ensures old(isMC) ==> genPt == [] && genEta == [] && genPhi == []
      ensures !old(isMC) ==> genPt == old(genPt) && genEta == old(genEta) && genPhi == old(genPhi)
      ensures vz == old(vz) && hiBin == old(hiBin) && weight == old(weight) && isMC == old(isMC)
    {
      nTracks := 0;
      if isMC {
        genPt, genEta, genPhi := [], [], [];
      }
    }

    /** The store step of the selection loop: copy t into the next free slot, mark it good, count it. */
    method StoreTrack(t: RawTrack)
      requires Valid() && nTracks < MAX_HBT_TRACKS
      modifies this, pt, eta, phi, dcaXY, dcaZ, charge, goodTrack
      ensures Valid()
      ensures nTracks == old(nTracks) + 1
      ensures SlotAt(old(nTracks)) == StoredSlot(t)
      ensures forall k :: 0 <= k < MAX_HBT_TRACKS && k != old(nTracks) ==> SlotAt(k) == old(SlotAt(k))
      ensures vz == old(vz) && hiBin == old(hiBin) && weight == old(weight) && isMC == old(isMC)
      ensures genPt == old(genPt) && genEta == old(genEta) && genPhi == old(genPhi)
    {
      var n := nTracks;
      pt[n] := t.pt;
      eta[n] := t.eta;
      phi[n] := t.phi;
      dcaXY[n] := t.dcaXY;
      dcaZ[n] := t.dcaZ;
      charge[n] := t.charge;
      goodTrack[n] := true;
      nTracks := n + 1;
    }
  }

  /**
   * Step 5 of read_tree: from slot 0, store every passing track of ts in order,
   * stopping when ts or the capacity runs out. Slots past the last stored track
   * and every other field keep their values.
   */
  method SelectTracks(event: HBTEvent, ts: seq<RawTrack>, cuts: HBTQualityCuts)
    requires event.Valid()
    modifies event, event.pt, event.eta, event.phi, event.dcaXY, event.dcaZ, event.charge, event.goodTrack
    ensures event.Valid()
    ensures event.nTracks == |Selection(ts, cuts)|
    ensures forall k :: 0 <= k < event.nTracks ==> event.SlotAt(k) == StoredSlot(Selection(ts, cuts)[k])
    ensures forall k :: event.nTracks <= k < MAX_HBT_TRACKS ==> event.SlotAt(k) == old(event.SlotAt(k))
    ensures event.vz == old(event.vz) && event.hiBin == old(event.hiBin)
    ensures event.weight == old(event.weight) && event.isMC == old(event.isMC)
    ensures event.genPt == old(event.genPt) && event.genEta == old(event.genEta) && event.genPhi == old(event.genPhi)
  {
    event.nTracks := 0;
    var i := 0;
    ghost var idx: seq<int> := [];
    while i < |ts| && event.nTracks < MAX_HBT_TRACKS
      invariant 0 <= i <= |ts|
      invariant event.Valid()
      invariant idx == PassingIndices(ts, cuts, i) && event.nTracks == |idx|
      invariant forall k :: 0 <= k < event.nTracks ==> event.SlotAt(k) == StoredSlot(ts[idx[k]])
      invariant forall k :: event.nTracks <= k < MAX_HBT_TRACKS ==> event.SlotAt(k) == old(event.SlotAt(k))
      invariant event.vz == old(event.vz) && event.hiBin == old(event.hiBin)
      invariant event.weight == old(event.weight) && event.isMC == old(event.isMC)
      invariant event.genPt == old(event.genPt) && event.genEta == old(event.genEta) && event.genPhi == old(event.genPhi)
    {
      var t := ts[i];
      PassingIndicesStep(ts, cuts, i);
      if PassesQuality(t, cuts) {
        ghost var n := event.nTracks;
        event.StoreTrack(t);
        idx := idx + [i];
        assert idx[n] == i && event.SlotAt(n) == StoredSlot(ts[i]);
      }
      i := i + 1;
    }
    SelectionWhenLoopStops(ts, cuts, i);
  }

  /**
   * read_tree: fail on a null tree before touching the event; otherwise clear the
   * event, load the entry's event branches (the weight only for MC), and select
   * tracks. The MC truth vectors of the tree are bound to local pointers in the
   * source, so the event's own vectors only see the clear.
   */
  method ReadTree(tree: Option<TreeEntry>, event: HBTEvent, cuts: HBTQualityCuts, isMC: bool)
    returns (r: Outcome<string>)
    requires event.Valid()
    modifies event, event.pt, event.eta, event.phi, event.dcaXY, event.dcaZ, event.charge, event.goodTrack
    ensures event.Valid()
    ensures tree.None? ==>
      && r == Fail("Null TChain provided")
      && unchanged(event, event.pt, event.eta, event.phi, event.dcaXY, event.dcaZ, event.charge, event.goodTrack)
    ensures tree.Some? ==>
      && r == Pass
      && event.isMC == isMC
      && event.vz == tree.value.vz && event.hiBin == tree.value.hiBin
      && event.weight == (if isMC then tree.value.weight else old(event.weight))
      && (old(event.isMC) ==> event.genPt == [] && event.genEta == [] && event.genPhi == [])
      && (!old(event.isMC) ==>
            event.genPt == old(event.genPt) && event.genEta == old(event.genEta) && event.genPhi == old(event.genPhi))
      && event.nTracks == |Selection(tree.value.tracks, cuts)|
      && (forall k :: 0 <= k < event.nTracks ==> event.SlotAt(k) == StoredSlot(Selection(tree.value.tracks, cuts)[k]))
      && (forall k :: event.nTracks <= k < MAX_HBT_TRACKS ==> event.SlotAt(k) == old(event.SlotAt(k)))
  {
    if tree.None? {
      return Fail("Null TChain provided");
    }
    var entry := tree.value;
    event.Clear();
    event.isMC := isMC;
    event.vz := entry.vz;
    event.hiBin := entry.hiBin;
    if isMC {
      event.weight := entry.weight;
    }
    SelectTracks(event, entry.tracks, cuts);
    return Pass;
  }

  // ===================================================================
  // Lemmas
  // ===================================================================

  /** A track index is listed iff it is below n and its track passes; the list increases strictly. */
  lemma {:induction false} PassingIndicesExactly(ts: seq<RawTrack>, cuts: HBTQualityCuts, n: int)
    requires 0 <= n <= |ts|
    ensures forall j :: j in PassingIndices(ts, cuts, n) <==> 0 <= j < n && PassesQuality(ts[j], cuts)
    ensures forall a, b :: 0 <= a < b < |PassingIndices(ts, cuts, n)| ==>
      PassingIndices(ts, cuts, n)[a] < PassingIndices(ts, cuts, n)[b]
  {
    if n > 0 {
      PassingIndicesExactly(ts, cuts, n - 1);
    }
  }

  /** Scanning further only appends: the indices below m are a prefix of those below n. */
  lemma {:induction false} PassingIndicesPrefix(ts: seq<RawTrack>, cuts: HBTQualityCuts, m: int, n: int)
    requires 0 <= m <= n <= |ts|
    ensures PassingIndices(ts, cuts, m) <= PassingIndices(ts, cuts, n)
    decreases n
  {
    if m < n {
      PassingIndicesPrefix(ts, cuts, m, n - 1);
    }
  }

  /** One more track scanned: its index is appended when it passes. */
  lemma PassingIndicesStep(ts: seq<RawTrack>, cuts: HBTQualityCuts, i: int)
    requires 0 <= i < |ts|
    ensures PassingIndices(ts, cuts, i + 1) ==
            PassingIndices(ts, cuts, i) + (if PassesQuality(ts[i], cuts) then [i] else [])
  {
  }

  /**
   * Where the selection loop stops, at the end of the list or with the event
   * full, the indices it has stored are those of the selection.
   */
  lemma SelectionWhenLoopStops(ts: seq<RawTrack>, cuts: HBTQualityCuts, i: int)
    requires 0 <= i <= |ts| && |PassingIndices(ts, cuts, i)| <= MAX_HBT_TRACKS
    requires i == |ts| || |PassingIndices(ts, cuts, i)| == MAX_HBT_TRACKS
    ensures var idx := PassingIndices(ts, cuts, i);
      && |Selection(ts, cuts)| == |idx|
      && forall k :: 0 <= k < |idx| ==> Selection(ts, cuts)[k] == ts[idx[k]]
  {
    PassingIndicesPrefix(ts, cuts, i, |ts|);
  }

  /** Every selected track passes every quality cut. */
  lemma SelectionPasses(ts: seq<RawTrack>, cuts: HBTQualityCuts)
    ensures forall t :: t in Selection(ts, cuts) ==> PassesQuality(t, cuts)
  {
    PassingIndicesExactly(ts, cuts, |ts|);
    var sel := Selection(ts, cuts);
    var idx := PassingIndices(ts, cuts, |ts|);
    forall t | t in sel
      ensures PassesQuality(t, cuts)
    {
      var k :| 0 <= k < |sel| && sel[k] == t;
      assert idx[k] in idx;
    }
  }

  /**
   * The selection is the input restricted to strictly increasing positions,
   * so stored tracks keep their input order and none is stored twice.
   */
  lemma SelectionIsOrderedSubsequence(ts: seq<RawTrack>, cuts: HBTQualityCuts)
    ensures var sel, idx := Selection(ts, cuts), PassingIndices(ts, cuts, |ts|);
      && |sel| <= |idx|
      && (forall k :: 0 <= k < |sel| ==> sel[k] == ts[idx[k]])
      && (forall a, b :: 0 <= a < b < |idx| ==> idx[a] < idx[b])
  {
    PassingIndicesExactly(ts, cuts, |ts|);
  }

  /**
   * When no more than MAX_HBT_TRACKS tracks pass, every passing track is stored;
   * otherwise the event is filled to capacity.
   */
  lemma SelectionComplete(ts: seq<RawTrack>, cuts: HBTQualityCuts)
    ensures var idx := PassingIndices(ts, cuts, |ts|);
      && (|idx| <= MAX_HBT_TRACKS ==> |Selection(ts, cuts)| == |idx|)
      && (|idx| <= MAX_HBT_TRACKS ==>
            forall j :: 0 <= j < |ts| && PassesQuality(ts[j], cuts) ==> ts[j] in Selection(ts, cuts))
      && (|idx| > MAX_HBT_TRACKS ==> |Selection(ts, cuts)| == MAX_HBT_TRACKS)
  {
    PassingIndicesExactly(ts, cuts, |ts|);
    var idx := PassingIndices(ts, cuts, |ts|);
    var sel := Selection(ts, cuts);
    if |idx| <= MAX_HBT_TRACKS {
      forall j | 0 <= j < |ts| && PassesQuality(ts[j], cuts)
        ensures ts[j] in sel
      {
        var k :| 0 <= k < |idx| && idx[k] == j;
        assert sel[k] == ts[j];
      }
    }
  }
}
