/**
 * The driver correlation_XeXe: how its integer command-line arguments become
 * run flags, the systematics label and the efficiency file, and the event loop
 * with its vertex cut and quick-test break.
 *
 * The per-event helpers the loop calls (fillHistograms, mixEvents,
 * applySystematicUncertainty) are recorded as a log of calls; getCentrality and
 * getVz become the fields of an EventEntry, one per chain entry.
 */
module RunConfig {
  import Kinematics

  /** The integer arguments of correlation_XeXe that decide the run's behaviour. */
  datatype DriverArgs = DriverArgs(
    isMC: int, doquicktest: int, domixing: int, hbt3d: int, gamov: int, centBool: int, syst: int)

  datatype RunFlags = RunFlags(
    quicktest: bool, isMC: bool, mixing: bool, hbt3d: bool, gamov: bool, useCentrality: bool, split: bool)

  /**
   * The boolean conversions: quick test, MC and Gamow are on for positive
   * arguments, while mixing, 3D and centrality are on for a zero argument; syst
   * 9 and 10 force the Gamow correction on, and syst 7 alone turns the split veto off.
   */
  function ConvertFlags(a: DriverArgs): (r: RunFlags)
    ensures r.quicktest <==> a.doquicktest > 0
    ensures r.isMC <==> a.isMC > 0
    ensures r.mixing <==> a.domixing == 0
    ensures r.hbt3d <==> a.hbt3d == 0
    ensures r.useCentrality <==> a.centBool == 0
    ensures r.gamov <==> a.gamov > 0 || a.syst == 9 || a.syst == 10
    ensures r.split <==> a.syst != 7
  {
    var gamov := if a.syst == 9 || a.syst == 10 then true else a.gamov > 0;
    RunFlags(a.doquicktest > 0, a.isMC > 0, a.domixing == 0, a.hbt3d == 0, gamov, a.centBool == 0, a.syst != 7)
  }

  /** The switch on syst naming the systematic variation. */
  function SystName(syst: int): string {
    match syst
    case 0 => "nominal"
    case 1 => "vznarrow"
    case 2 => "vzwide"
    case 3 => "trktight"
    case 4 => "trkloose"
    case 5 => "centup"
    case 6 => "centdown"
    case 7 => "removeduplicatedcut"
    case 8 => "removeNpixelhitcut"
    case 9 => "gamovplus15"
    case 10 => "gamovminus15"
    case _ => "nonapplied_nominal"
  }

  function CentralitySuffix(useCentrality: bool): string {
    if useCentrality then "_cent" else "_Ntroff"
  }

  /** The systematics string: the variation's name followed by the centrality or multiplicity suffix. */
  function SystLabel(syst: int, useCentrality: bool): string {
    SystName(syst) + CentralitySuffix(useCentrality)
  }

  const DEFAULT_EFF_FILE: string := "efftables/XeXe_eff_table_94x_cent.root"

  /** The efficiency file opened for syst: four variants for syst 1..4, the default otherwise. */
  function EffFile(syst: int): string {
    if syst == 1 then "efftables/XeXe_eff_narrow_table_94x_cent.root"
    else if syst == 2 then "efftables/XeXe_eff_wide_table_94x_cent.root"
    else if syst == 3 then "efftables/XeXe_eff_tight_table_94x_cent.root"
    else if syst == 4 then "efftables/XeXe_eff_loose_table_94x_cent.root"
    else DEFAULT_EFF_FILE
  }

  // ------------------------------------------------------------ event loop

  /** What getCentrality and getVz report for one chain entry. */
  datatype EventEntry = EventEntry(centrality: int, vz: real)

  /** One call of a per-event helper, with the index of the entry it was made for. */
  datatype Call = FillHistograms(entry: nat) | MixEvents(entry: nat) | ApplySystematics(entry: nat)

  /** The last entry index a quick test is meant to reach. */
  const QUICKTEST_LAST_ENTRY: nat := 1000

  /** The helper calls made for entry i: none below the vertex cut, else fill, then mixing and systematics if on. */
  function EventCalls(e: EventEntry, i: nat, minvz: real, mixing: bool, syst: int): seq<Call> {
    if e.vz < minvz then []
    else [FillHistograms(i)] + (if mixing then [MixEvents(i)] else []) + (if syst != 0 then [ApplySystematics(i)] else [])
  }

  /** The calls made for entries 0..k-1, in order. */
  function CallsUpTo(entries: seq<EventEntry>, k: nat, minvz: real, mixing: bool, syst: int): seq<Call>
    requires k <= |entries|
  {
    if k == 0 then []
    else CallsUpTo(entries, k - 1, minvz, mixing, syst) + EventCalls(entries[k - 1], k - 1, minvz, mixing, syst)
  }

  /**
   * The number of entries the loop reads when it reaches entry i: it stops after
   * the first entry at index 1000 or later that passes the vertex cut, in a quick
   * test, and at the end of the chain otherwise.
   */
  function EntriesReadFrom(entries: seq<EventEntry>, minvz: real, quicktest: bool, i: nat): (r: nat)
    requires i <= |entries|
    ensures i <= r <= |entries|
    decreases |entries| - i
  {
    if i == |entries| then i
    else if !(entries[i].vz < minvz) && quicktest && i >= QUICKTEST_LAST_ENTRY then i + 1
    else EntriesReadFrom(entries, minvz, quicktest, i + 1)
  }

  /**
   * The event loop as written: read entry i, skip it below the vertex cut, else
   * fill, mix if mixing is on, apply systematics if syst is not 0, and in a quick
   * test stop once i >= 1000.
   */
  method EventLoop(entries: seq<EventEntry>, minvz: real, flags: RunFlags, syst: int)
    returns (calls: seq<Call>, read: nat)
    ensures read == EntriesReadFrom(entries, minvz, flags.quicktest, 0)
    ensures calls == CallsUpTo(entries, read, minvz, flags.mixing, syst)
  {
    calls, read := [], 0;
    var i := 0;
    while i < |entries|
      invariant i <= |entries| && read == i
      invariant calls == CallsUpTo(entries, i, minvz, flags.mixing, syst)
      invariant EntriesReadFrom(entries, minvz, flags.quicktest, 0) == EntriesReadFrom(entries, minvz, flags.quicktest, i)
    {
      var e := entries[i];
      ghost var before := calls;
      CallsStep(entries, i, minvz, flags.mixing, syst);
      ReadStep(entries, minvz, flags.quicktest, i);
      read := i + 1;
      if e.vz < minvz {
        i := i + 1;
        continue;
      }
      calls := calls + [FillHistograms(i)];
      if flags.mixing {
        calls := calls + [MixEvents(i)];
      }
      assert calls == before + [FillHistograms(i)] + (if flags.mixing then [MixEvents(i)] else []);
      if syst != 0 {
        calls := calls + [ApplySystematics(i)];
      }
      assert calls == before + EventCalls(e, i, minvz, flags.mixing, syst);
      if flags.quicktest && i >= QUICKTEST_LAST_ENTRY {
        break;
      }
      i := i + 1;
    }
  }

  /** With the quick-test stop applied to every entry, skipped or not: at most 1001 entries. */
  function CorrectedEntriesReadFrom(entries: seq<EventEntry>, quicktest: bool, i: nat): (r: nat)
    requires i <= |entries|
    ensures i <= r <= |entries|
    decreases |entries| - i
  {
    if i == |entries| then i
    else if quicktest && i >= QUICKTEST_LAST_ENTRY then i + 1
    else CorrectedEntriesReadFrom(entries, quicktest, i + 1)
  }

  /** The event loop with the quick-test stop checked before the vertex cut can skip it. */
  method CorrectedEventLoop(entries: seq<EventEntry>, minvz: real, flags: RunFlags, syst: int)
    returns (calls: seq<Call>, read: nat)
    ensures read == CorrectedEntriesReadFrom(entries, flags.quicktest, 0)
    ensures calls == CallsUpTo(entries, read, minvz, flags.mixing, syst)
  {
    calls, read := [], 0;
    var i := 0;
    while i < |entries|
      invariant i <= |entries| && read == i
      invariant calls == CallsUpTo(entries, i, minvz, flags.mixing, syst)
      invariant CorrectedEntriesReadFrom(entries, flags.quicktest, 0) == CorrectedEntriesReadFrom(entries, flags.quicktest, i)
    {
      var e := entries[i];
      ghost var before := calls;
      CallsStep(entries, i, minvz, flags.mixing, syst);
      read := i + 1;
      var stop := flags.quicktest && i >= QUICKTEST_LAST_ENTRY;
      if e.vz < minvz {
        if stop {
          break;
        }
        i := i + 1;
        continue;
      }
      calls := calls + [FillHistograms(i)];
      if flags.mixing {
        calls := calls + [MixEvents(i)];
      }
      assert calls == before + [FillHistograms(i)] + (if flags.mixing then [MixEvents(i)] else []);
      if syst != 0 {
        calls := calls + [ApplySystematics(i)];
      }
      assert calls == before + EventCalls(e, i, minvz, flags.mixing, syst);
      if stop {
        break;
      }
      i := i + 1;
    }
  }

  /** One more entry: its calls are appended after those of the entries before it. */
  lemma CallsStep(entries: seq<EventEntry>, i: nat, minvz: real, mixing: bool, syst: int)
    requires i < |entries|
    ensures CallsUpTo(entries, i + 1, minvz, mixing, syst)
      == CallsUpTo(entries, i, minvz, mixing, syst) + EventCalls(entries[i], i, minvz, mixing, syst)
  {
  }

  /** The as-written loop stops after entry i exactly when i passes the vertex cut in a quick test past 1000. */
  lemma ReadStep(entries: seq<EventEntry>, minvz: real, quicktest: bool, i: nat)
    requires i < |entries|
    ensures EntriesReadFrom(entries, minvz, quicktest, i)
      == if !(entries[i].vz < minvz) && quicktest && i >= QUICKTEST_LAST_ENTRY then i + 1
         else EntriesReadFrom(entries, minvz, quicktest, i + 1)
  {
  }

  // ===================================================================
  // Lemmas
  // ===================================================================

  /**
   * Every helper call is for an entry already read that passed the vertex cut;
   * mixing calls only happen with mixing on, systematics calls only for syst != 0.
   */
  lemma {:induction false} CallsRespectGuards(entries: seq<EventEntry>, k: nat, minvz: real, mixing: bool, syst: int)
    requires k <= |entries|
    ensures forall c | c in CallsUpTo(entries, k, minvz, mixing, syst) ::
      && c.entry < k
      && !(entries[c.entry].vz < minvz)
      && (c.MixEvents? ==> mixing)
      && (c.ApplySystematics? ==> syst != 0)
  {
    if k > 0 {
      var prev := CallsUpTo(entries, k - 1, minvz, mixing, syst);
      var last := EventCalls(entries[k - 1], k - 1, minvz, mixing, syst);
      CallsRespectGuards(entries, k - 1, minvz, mixing, syst);
      EventCallsGuarded(entries[k - 1], k - 1, minvz, mixing, syst);
      assert CallsUpTo(entries, k, minvz, mixing, syst) == prev + last;
      forall c: Call | c in prev + last
        ensures c.entry < k && !(entries[c.entry].vz < minvz)
      {
        if c in prev {
          assert c.entry < k - 1;
        } else {
          assert c in last;
        }
      }
    }
  }

  /** The calls for one entry name that entry and respect the vertex cut and both switches. */
  lemma EventCallsGuarded(e: EventEntry, i: nat, minvz: real, mixing: bool, syst: int)
    ensures forall c | c in EventCalls(e, i, minvz, mixing, syst) ::
      && c.entry == i
      && !(e.vz < minvz)
      && (c.MixEvents? ==> mixing)
      && (c.ApplySystematics? ==> syst != 0)
  {
  }

  /** Every entry read that passes the vertex cut is filled. */
  lemma {:induction false} AcceptedEntriesFilled(entries: seq<EventEntry>, k: nat, minvz: real, mixing: bool, syst: int)
    requires k <= |entries|
    ensures forall j | 0 <= j < k && !(entries[j].vz < minvz) ::
      FillHistograms(j) in CallsUpTo(entries, k, minvz, mixing, syst)
  {
    if k > 0 {
      AcceptedEntriesFilled(entries, k - 1, minvz, mixing, syst);
      var calls := CallsUpTo(entries, k, minvz, mixing, syst);
      forall j | 0 <= j < k && !(entries[j].vz < minvz)
        ensures FillHistograms(j) in calls
      {
        if j < k - 1 {
          assert FillHistograms(j) in CallsUpTo(entries, k - 1, minvz, mixing, syst);
        } else {
          assert calls[|CallsUpTo(entries, k - 1, minvz, mixing, syst)|] == FillHistograms(j);
        }
      }
    }
  }

  /** Without a quick test every entry is read. */
  lemma {:induction false} FullRunReadsEverything(entries: seq<EventEntry>, minvz: real, i: nat)
    requires i <= |entries|
    ensures EntriesReadFrom(entries, minvz, false, i) == |entries|
    decreases |entries| - i
  {
    if i < |entries| {
      FullRunReadsEverything(entries, minvz, i + 1);
    }
  }

  /** As written: when every entry fails the vertex cut, a quick test still reads every entry. */
  lemma {:induction false} SkippedEntriesDefeatQuickTest(entries: seq<EventEntry>, minvz: real, i: nat)
    requires i <= |entries|
    requires forall j | 0 <= j < |entries| :: entries[j].vz < minvz
    ensures EntriesReadFrom(entries, minvz, true, i) == |entries|
    decreases |entries| - i
  {
    if i < |entries| {
      SkippedEntriesDefeatQuickTest(entries, minvz, i + 1);
    }
  }

  /** In a quick test, every entry from 1000 on that is read before the last one was skipped by the vertex cut. */
  lemma {:induction false} SkippedUntilQuickTestStop(entries: seq<EventEntry>, minvz: real, i: nat)
    requires i <= |entries|
    ensures forall j | i <= j < EntriesReadFrom(entries, minvz, true, i) - 1 && j >= QUICKTEST_LAST_ENTRY ::
      entries[j].vz < minvz
    decreases |entries| - i
  {
    if i < |entries| && !(!(entries[i].vz < minvz) && i >= QUICKTEST_LAST_ENTRY) {
      SkippedUntilQuickTestStop(entries, minvz, i + 1);
    }
  }

  /**
   * As written, a quick test still processes at most 1001 events: every call for
   * an entry from 1000 on is a call for the last entry read. Only the reads of
   * skipped entries go past the limit.
   */
  lemma QuickTestProcessesAtMost1001(entries: seq<EventEntry>, minvz: real, mixing: bool, syst: int)
    ensures var read := EntriesReadFrom(entries, minvz, true, 0);
      forall c | c in CallsUpTo(entries, read, minvz, mixing, syst) ::
        c.entry < QUICKTEST_LAST_ENTRY || c.entry == read - 1
  {
    var read := EntriesReadFrom(entries, minvz, true, 0);
    CallsRespectGuards(entries, read, minvz, mixing, syst);
    SkippedUntilQuickTestStop(entries, minvz, 0);
  }

  /** The witness: 1002 entries below the vertex cut are all read in a quick test. */
  lemma QuickTestReadsPastLimit()
    ensures var entries := seq(1002, j => EventEntry(0, -1.0));
      EntriesReadFrom(entries, 0.0, true, 0) == 1002 > QUICKTEST_LAST_ENTRY + 1
  {
    var entries := seq(1002, j => EventEntry(0, -1.0));
    SkippedEntriesDefeatQuickTest(entries, 0.0, 0);
  }

  /** Corrected: a quick test reads min(|entries|, 1001) entries. */
  lemma {:induction false} CorrectedQuickTestBound(entries: seq<EventEntry>, i: nat)
    requires i <= |entries| && i <= QUICKTEST_LAST_ENTRY
    ensures CorrectedEntriesReadFrom(entries, true, i) ==
              if |entries| <= QUICKTEST_LAST_ENTRY + 1 then |entries| else QUICKTEST_LAST_ENTRY + 1
    decreases |entries| - i
  {
    if i < |entries| && i < QUICKTEST_LAST_ENTRY {
      CorrectedQuickTestBound(entries, i + 1);
    }
  }

  /** Below entry 1000 neither loop can stop, so both reach entry 1000. */
  lemma {:induction false} NoStopBeforeLimit(entries: seq<EventEntry>, minvz: real, i: nat)
    requires i <= QUICKTEST_LAST_ENTRY < |entries|
    ensures EntriesReadFrom(entries, minvz, true, i) == EntriesReadFrom(entries, minvz, true, QUICKTEST_LAST_ENTRY)
    ensures CorrectedEntriesReadFrom(entries, true, i) == CorrectedEntriesReadFrom(entries, true, QUICKTEST_LAST_ENTRY)
    decreases QUICKTEST_LAST_ENTRY - i
  {
    if i < QUICKTEST_LAST_ENTRY {
      NoStopBeforeLimit(entries, minvz, i + 1);
    }
  }

  /** The two loops read the same entries whenever entry 1000 passes the vertex cut or the chain is short. */
  lemma CorrectedAgreesWhenEntry1000Passes(entries: seq<EventEntry>, minvz: real)
    requires |entries| <= QUICKTEST_LAST_ENTRY || !(entries[QUICKTEST_LAST_ENTRY].vz < minvz)
    ensures EntriesReadFrom(entries, minvz, true, 0) == CorrectedEntriesReadFrom(entries, true, 0)
  {
    if |entries| <= QUICKTEST_LAST_ENTRY {
      ShortChainReadsEverything(entries, minvz, 0);
    } else {
      NoStopBeforeLimit(entries, minvz, 0);
    }
  }

  /** A chain of at most 1000 entries is read completely by both loops. */
  lemma {:induction false} ShortChainReadsEverything(entries: seq<EventEntry>, minvz: real, i: nat)
    requires i <= |entries| <= QUICKTEST_LAST_ENTRY
    ensures EntriesReadFrom(entries, minvz, true, i) == |entries|
    ensures CorrectedEntriesReadFrom(entries, true, i) == |entries|
    decreases |entries| - i
  {
    if i < |entries| {
      ShortChainReadsEverything(entries, minvz, i + 1);
    }
  }

  // ------------------------------------------------------- labels and files

  /** Dropping the centrality suffix from a label leaves the syst name. */
  lemma LabelPrefix(syst: int, useCentrality: bool)
    ensures var text := SystLabel(syst, useCentrality);
      text[..|text| - |CentralitySuffix(useCentrality)|] == SystName(syst)
  {
    var text := SystLabel(syst, useCentrality);
    assert text == SystName(syst) + CentralitySuffix(useCentrality);
  }

  /** Every syst outside 0..10 falls through to "nonapplied_nominal". */
  lemma SystNameFallback(syst: int)
    ensures !(0 <= syst <= 10) ==> SystName(syst) == "nonapplied_nominal"
  {
  }

  /**
   * The label is the syst name followed by "_cent" exactly when centrality
   * is used and by "_Ntroff" otherwise; unknown syst values get the fallback name.
   */
  lemma LabelSuffix(syst: int, useCentrality: bool)
    ensures var text := SystLabel(syst, useCentrality);
      && (useCentrality <==> |text| >= 5 && text[|text| - 5..] == "_cent")
      && (!useCentrality <==> |text| >= 7 && text[|text| - 7..] == "_Ntroff")
      && text[..|text| - |CentralitySuffix(useCentrality)|] == SystName(syst)
    ensures !(0 <= syst <= 10) ==> SystName(syst) == "nonapplied_nominal"
  {
    LabelPrefix(syst, useCentrality);
    SystNameFallback(syst);
    var text := SystLabel(syst, useCentrality);
    if useCentrality {
      assert text[|text| - 5..] == "_cent";
      if |text| >= 7 {
        assert text[|text| - 7..][2] == text[|text| - 5] == '_';
      }
    } else {
      assert text[|text| - 7..] == "_Ntroff";
      assert text[|text| - 5..][0] == 't';
    }
  }

  /** The eleven known variations have eleven different names, none of them the fallback. */
  lemma SystNamesDistinct(s1: int, s2: int)
    requires 0 <= s1 <= 10 && 0 <= s2 <= 10 && s1 != s2
    ensures SystName(s1) != SystName(s2)
    ensures SystName(s1) != "nonapplied_nominal"
  {
  }

  /** Variations 1..4 select four different non-default efficiency files; all others the default. */
  lemma EffFileDispatch(s1: int, s2: int)
    ensures EffFile(s1) != DEFAULT_EFF_FILE <==> 1 <= s1 <= 4
    ensures 1 <= s1 <= 4 && 1 <= s2 <= 4 && s1 != s2 ==> EffFile(s1) != EffFile(s2)
  {
  }

  /**
   * syst 9 and 10 are labelled as the Gamow +-15% variations and force the
   * Gamow correction on, but the Coulomb weights only scale for syst 1 and 2:
   * both variations weight pairs exactly as the nominal run does.
   */
  lemma GamowVariantsAreNominal(a: DriverArgs, lib: Kinematics.MathLib, qinv: real)
    requires a.syst == 9 || a.syst == 10
    ensures ConvertFlags(a).gamov
    ensures Kinematics.CoulombSSWeight(lib, qinv, a.syst) == Kinematics.CoulombSSWeight(lib, qinv, 0)
    ensures Kinematics.CoulombOSWeight(lib, qinv, a.syst) == Kinematics.CoulombOSWeight(lib, qinv, 0)
  {
  }
}
