/**
 * HTCondor_submit_data.py: the number of files per job and its guard, the
 * partition of the input file list into job parts, and the text of the HTCondor
 * submission file. Reading the list, writing the part files and the submission
 * file, and launching condor_submit are side effects: the model returns the
 * part files and the submission text instead.
 */
module CondorSubmit {
  import opened Wrappers

  /** The command-line options the submission depends on. */
  datatype SubmitOptions = SubmitOptions(
    inFiles: string, outFiles: string, jobFlavour: string, nCpu: int,
    nJobs: int, subFiles: string, uncerSys: int, split: bool)

  const TOO_MANY_JOBS: string := "Number of jobs greater than number of files, please reduce the number of jobs."

  /** The fixed analysis arguments every job passes before the systematics number. */
  const FIXED_ARGUMENTS: string := "0 0 0 10 5 2.0 0 0 0"

  // ------------------------------------------------------------ decimal text

  function DigitChar(d: nat): char
    requires d < 10
  {
    "0123456789"[d]
  }

  /** str(n) for n >= 0: decimal digits without leading zeros. */
  function NatToString(n: nat): (s: string)
    ensures |s| >= 1
    decreases n
  {
    if n < 10 then [DigitChar(n)] else NatToString(n / 10) + [DigitChar(n % 10)]
  }

  /** str(i) for any integer. */
  function IntToString(i: int): string {
    if i < 0 then "-" + NatToString(-i) else NatToString(i)
  }

  /** The value of a string of decimal digits. */
  function ParseNat(s: string): int {
    if |s| == 0 then 0 else 10 * ParseNat(s[..|s| - 1]) + (s[|s| - 1] as int - '0' as int)
  }

  // ------------------------------------------------------- files per job

  /** ratio: the number of lines over the number of jobs, or the number of lines when there are no jobs. */
  function Ratio(numLines: nat, nJobs: int): real {
    if nJobs != 0 then numLines as real / nJobs as real else numLines as real
  }

  /**
   * The guard and ratioint: the script exits when ratio < 1, and otherwise each
   * job gets int(ratio) files, which is the integer quotient.
   */
  function FilesPerJob(numLines: nat, nJobs: int): (r: Result<nat, string>)
    ensures r.Success? <==> (nJobs == 0 && numLines >= 1) || (nJobs > 0 && numLines >= nJobs)
    ensures r.Failure? ==> r.error == TOO_MANY_JOBS
    ensures r.Success? && nJobs > 0 ==> r.value == numLines / nJobs >= 1
    ensures r.Success? && nJobs == 0 ==> r.value == numLines
  {
    RatioFacts(numLines, nJobs);
    var ratio := Ratio(numLines, nJobs);
    if ratio < 1.0 then Failure(TOO_MANY_JOBS) else Success(ratio.Floor)
  }

  /** What the real-valued ratio says about the integer counts. */
  lemma RatioFacts(numLines: nat, nJobs: int)
    ensures nJobs < 0 ==> Ratio(numLines, nJobs) < 1.0
    ensures nJobs > 0 ==> (Ratio(numLines, nJobs) < 1.0 <==> numLines < nJobs)
    ensures nJobs > 0 ==> Ratio(numLines, nJobs).Floor == numLines / nJobs
  {
    if nJobs < 0 {
      NegativeJobsRatio(numLines, nJobs);
    } else if nJobs > 0 {
      RatioBetweenQuotients(numLines, nJobs);
    }
  }

  lemma NegativeJobsRatio(numLines: nat, nJobs: int)
    requires nJobs < 0
    ensures Ratio(numLines, nJobs) <= 0.0
  {
    var j := nJobs as real;
    var ratio := numLines as real / j;
    assert ratio * j == numLines as real;
  }

  /** ratio lies in [q, q + 1) for the integer quotient q, and is at least 1 exactly when q is. */
  lemma RatioBetweenQuotients(numLines: nat, nJobs: int)
    requires nJobs > 0
    ensures var q := numLines / nJobs;
      q as real <= Ratio(numLines, nJobs) < q as real + 1.0
    ensures Ratio(numLines, nJobs) < 1.0 <==> numLines < nJobs
  {
    var j := nJobs as real;
    var q, rem := numLines / nJobs, numLines % nJobs;
    assert numLines == q * nJobs + rem;
    assert q >= 0;
    CastProduct(q, nJobs);
    var qr := q as real;
    assert numLines as real == qr * j + rem as real;
    QuotientOfReals(numLines as real, j, qr, rem as real);
  }

  /** n / j lies in [q, q + 1) when n = q * j + rem with 0 <= rem < j. */
  lemma QuotientOfReals(n: real, j: real, q: real, rem: real)
    requires j > 0.0 && 0.0 <= rem < j && n == q * j + rem
    ensures q <= n / j < q + 1.0
  {
    var ratio := n / j;
    assert ratio * j == n;
    assert (q + 1.0) * j == q * j + j;
    LessAfterScaling(q, ratio, j, false);
    LessAfterScaling(ratio, q + 1.0, j, true);
  }

  /** The product of two integers, as a real, is the product of the two reals. */
  lemma {:induction false} CastProduct(a: int, b: nat)
    ensures (a * b) as real == (a as real) * (b as real)
    decreases b
  {
    if b > 0 {
      CastProduct(a, b - 1);
      assert a * b == a * (b - 1) + a;
    }
  }

  /** Comparisons of a * j and b * j carry over to a and b when j > 0. */
  lemma LessAfterScaling(a: real, b: real, j: real, strict: bool)
    requires j > 0.0
    requires if strict then a * j < b * j else a * j <= b * j
    ensures if strict then a < b else a <= b
  {
    assert (b - a) * j == b * j - a * j;
  }

  // ------------------------------------------------------------- partition

  /** The index part i starts at: i * ratioint, built up one part at a time. */
  function Offset(i: nat, size: nat): nat {
    if i == 0 then 0 else Offset(i - 1, size) + size
  }

  /** Part i of the list: lines [i * ratioint, (i + 1) * ratioint), the last part running to the end. */
  function Part(lines: seq<string>, i: nat, nJobs: nat, ratioint: nat): (r: seq<string>)
    requires i < nJobs && Offset(nJobs, ratioint) <= |lines|
  {
    OffsetMonotone(i + 1, nJobs, ratioint);
    if i == nJobs - 1 then lines[Offset(i, ratioint)..] else lines[Offset(i, ratioint)..Offset(i + 1, ratioint)]
  }

  /** The elements of the sequences, in order, one after the other. */
  function Flatten<T>(ss: seq<seq<T>>): seq<T> {
    if |ss| == 0 then [] else Flatten(ss[..|ss| - 1]) + ss[|ss| - 1]
  }

  function PartFileName(inFiles: string, i: nat): string {
    inFiles + "_part" + NatToString(i) + ".txt"
  }

  /** A part file the script writes: its name and its lines. */
  datatype PartFile = PartFile(name: string, lines: seq<string>)

  // ---------------------------------------------------------- submit text

  /** The fixed head of the submission file. */
  function Header(o: SubmitOptions): string {
    "universe   = vanilla\n"
    + "getenv     = True\n"
    + "executable = htsub.sh\n"
    + "+JobFlavour = \"" + o.jobFlavour + "\"\n"
    + "requirements = ((OpSysAndVer =?= \"AlmaLinux9\") && (CERNEnvironment =?= \"qa\"))\n"
    + "RequestCpus = " + IntToString(o.nCpu) + "\n"
  }

  /** One queue block: log, output and error under cond/, and the job's arguments. */
  function JobBlock(condName: string, inputList: string, output: string, uncerSys: int): string {
    "\n"
    + "log        = cond/" + condName + ".log\n"
    + "output     = cond/" + condName + ".out\n"
    + "error      = cond/" + condName + ".err\n"
    + "arguments = " + inputList + " " + output + " " + FIXED_ARGUMENTS + " " + IntToString(uncerSys) + "\n"
    + "queue\n"
  }

  /** The single job of a run without splitting: the whole list, one output. */
  function SingleJob(o: SubmitOptions): string {
    JobBlock(o.subFiles, o.inFiles + ".txt", o.outFiles, o.uncerSys)
  }

  /** Job i of a split run: its own part file and its own output name. */
  function SplitJob(o: SubmitOptions, i: nat): string {
    JobBlock(o.subFiles + "_part_" + NatToString(i), PartFileName(o.inFiles, i),
             o.outFiles + "_job_" + NatToString(i), o.uncerSys)
  }

  /** The part files 0..k-1 of a split run, in order. */
  function PartFiles(lines: seq<string>, inFiles: string, k: nat, nJobs: nat, ratioint: nat): (r: seq<PartFile>)
    requires k <= nJobs && Offset(nJobs, ratioint) <= |lines|
    ensures |r| == k
    ensures forall i :: 0 <= i < k ==> r[i] == PartFile(PartFileName(inFiles, i), Part(lines, i, nJobs, ratioint))
  {
    if k == 0 then []
    else PartFiles(lines, inFiles, k - 1, nJobs, ratioint) + [PartFile(PartFileName(inFiles, k - 1), Part(lines, k - 1, nJobs, ratioint))]
  }

  /** The blocks of jobs 0..k-1 of a split run, in order. */
  function SplitJobs(o: SubmitOptions, k: nat): (r: seq<string>)
    ensures |r| == k
    ensures forall i :: 0 <= i < k ==> r[i] == SplitJob(o, i)
  {
    if k == 0 then [] else SplitJobs(o, k - 1) + [SplitJob(o, k - 1)]
  }

  /** What the script produces: the part files, the queue blocks and the whole submission text. */
  datatype Submission = Submission(partFiles: seq<PartFile>, jobs: seq<string>, text: string)

  /**
   * The script after reading the list: the guard, then one job over the whole
   * list, or one part file and one job per part, appended in order to the text.
   */
  method PrepareSubmission(lines: seq<string>, o: SubmitOptions) returns (r: Result<Submission, string>)
    ensures FilesPerJob(|lines|, o.nJobs).Failure? ==> r == Failure(TOO_MANY_JOBS)
    ensures FilesPerJob(|lines|, o.nJobs).Success? ==> r.Success?
    ensures r.Success? ==> r.value.text == Header(o) + Flatten(r.value.jobs)
    ensures r.Success? && !o.split ==> r.value.partFiles == [] && r.value.jobs == [SingleJob(o)]
    ensures r.Success? && o.split ==>
      var ratioint := FilesPerJob(|lines|, o.nJobs).value;
      && Offset(o.nJobs, ratioint) <= |lines|
      && r.value.partFiles == PartFiles(lines, o.inFiles, o.nJobs, o.nJobs, ratioint)
      && r.value.jobs == SplitJobs(o, o.nJobs)
      && (o.nJobs > 0 ==> Flatten(Contents(r.value.partFiles)) == lines)
  {
    var perJob := FilesPerJob(|lines|, o.nJobs);
    if perJob.Failure? {
      return Failure(TOO_MANY_JOBS);
    }
    var s;
    if !o.split {
      s := SingleSubmission(o);
    } else {
      s := SplitSubmission(lines, o, perJob.value);
    }
    r := Success(s);
  }

  /** The run without splitting: the header and one job over the whole list, no part files. */
  method SingleSubmission(o: SubmitOptions) returns (s: Submission)
    ensures s.partFiles == [] && s.jobs == [SingleJob(o)]
    ensures s.text == Header(o) + Flatten(s.jobs)
  {
    var text := Header(o);
    var temp := SingleJob(o);
    text := text + temp;
    assert Flatten([temp]) == temp;
    s := Submission([], [temp], text);
  }

  /**
   * The split run: the header, then for each job its part file of ratioint lines
   * (the last one running to the end of the list) and its queue block.
   */
  method SplitSubmission(lines: seq<string>, o: SubmitOptions, ratioint: nat) returns (s: Submission)
    requires FilesPerJob(|lines|, o.nJobs) == Success(ratioint)
    ensures o.nJobs >= 0 && Offset(o.nJobs, ratioint) <= |lines|
    ensures s.text == Header(o) + Flatten(s.jobs)
    ensures s.partFiles == PartFiles(lines, o.inFiles, o.nJobs, o.nJobs, ratioint)
    ensures s.jobs == SplitJobs(o, o.nJobs)
    ensures o.nJobs > 0 ==> Flatten(Contents(s.partFiles)) == lines
  {
    var nJobs: nat := o.nJobs;
    if nJobs > 0 {
      assert Offset(nJobs, ratioint) <= |lines| by {
        assert ratioint == |lines| / nJobs;
        OffsetIsProduct(nJobs, ratioint);
      }
    }
    var files, jobs, text := WriteParts(lines, o, nJobs, ratioint, Header(o));
    if nJobs > 0 {
      PartsCoverLines(lines, nJobs, ratioint);
      PartFilesHoldParts(lines, o.inFiles, nJobs, nJobs, ratioint);
    }
    s := Submission(files, jobs, text);
  }

  /** The loop over range(nJobs): write part i, then append job i's block to the text. */
  method WriteParts(lines: seq<string>, o: SubmitOptions, nJobs: nat, ratioint: nat, head: string)
    returns (files: seq<PartFile>, jobs: seq<string>, text: string)
    requires nJobs > 0 ==> Offset(nJobs, ratioint) <= |lines|
    ensures |files| == |jobs| == nJobs
    ensures files == PartFiles(lines, o.inFiles, nJobs, nJobs, ratioint)
    ensures jobs == SplitJobs(o, nJobs)
    ensures text == head + Flatten(jobs)
  {
    files, jobs, text := [], [], head;
    var i: nat := 0;
    while i < nJobs
      invariant i <= nJobs
      invariant files == PartFiles(lines, o.inFiles, i, nJobs, ratioint)
      invariant jobs == SplitJobs(o, i)
      invariant text == head + Flatten(jobs)
    {
      var partFile := WritePart(lines, o.inFiles, i, nJobs, ratioint);
      assert PartFiles(lines, o.inFiles, i + 1, nJobs, ratioint) == files + [partFile];
      files := files + [partFile];
      var temp := SplitJob(o, i);
      AppendBlock(head, jobs, temp);
      assert SplitJobs(o, i + 1) == jobs + [temp];
      text := text + temp;
      jobs := jobs + [temp];
      i := i + 1;
    }
  }

  /** One part file: the slice Lines[starti:endi], with endi the end of the list for the last part. */
  method WritePart(lines: seq<string>, inFiles: string, i: nat, nJobs: nat, ratioint: nat) returns (f: PartFile)
    requires i < nJobs && Offset(nJobs, ratioint) <= |lines|
    ensures f == PartFile(PartFileName(inFiles, i), Part(lines, i, nJobs, ratioint))
  {
    OffsetMonotone(i + 1, nJobs, ratioint);
    OffsetIsProduct(i, ratioint);
    OffsetIsProduct(i + 1, ratioint);
    var starti := i * ratioint;
    var endi := (i + 1) * ratioint;
    if i == nJobs - 1 {
      endi := |lines|;
    }
    f := PartFile(PartFileName(inFiles, i), lines[starti..endi]);
  }

  /** Appending a block to the text appends it to the flattened jobs. */
  lemma AppendBlock(head: string, jobs: seq<string>, block: string)
    ensures head + Flatten(jobs) + block == head + Flatten(jobs + [block])
  {
    FlattenSnoc(jobs, block);
  }

  lemma FlattenSnoc<T>(ss: seq<seq<T>>, s: seq<T>)
    ensures Flatten(ss + [s]) == Flatten(ss) + s
  {
    assert (ss + [s])[..|ss|] == ss;
  }

  /** The lines of each part file, in order. */
  function Contents(files: seq<PartFile>): (r: seq<seq<string>>)
    ensures |r| == |files| && forall i | 0 <= i < |files| :: r[i] == files[i].lines
  {
    seq(|files|, i requires 0 <= i < |files| => files[i].lines)
  }

  /** Parts 0..k-1 of the list. */
  function Parts(lines: seq<string>, k: nat, nJobs: nat, ratioint: nat): (r: seq<seq<string>>)
    requires k <= nJobs && Offset(nJobs, ratioint) <= |lines|
    ensures |r| == k
  {
    if k == 0 then [] else Parts(lines, k - 1, nJobs, ratioint) + [Part(lines, k - 1, nJobs, ratioint)]
  }

  // ===================================================================
  // Lemmas
  // ===================================================================

  /** Reading str(n) back as a number gives n. */
  lemma {:induction false} NatToStringRoundTrip(n: nat)
    ensures ParseNat(NatToString(n)) == n
    decreases n
  {
    var s := NatToString(n);
    if n >= 10 {
      NatToStringRoundTrip(n / 10);
      assert s[..|s| - 1] == NatToString(n / 10);
    }
  }

  /** Different parts are written to different files. */
  lemma PartFileNamesDistinct(inFiles: string, i: nat, j: nat)
    requires i != j
    ensures PartFileName(inFiles, i) != PartFileName(inFiles, j)
  {
    var a, b := NatToString(i), NatToString(j);
    if PartFileName(inFiles, i) == PartFileName(inFiles, j) {
      var pre := inFiles + "_part";
      assert |a| == |b|;
      assert PartFileName(inFiles, i)[|pre|..|pre| + |a|] == a;
      assert PartFileName(inFiles, j)[|pre|..|pre| + |b|] == b;
      NatToStringRoundTrip(i);
      NatToStringRoundTrip(j);
    }
  }

  /** The offsets grow with the part index. */
  lemma {:induction false} OffsetMonotone(a: nat, b: nat, size: nat)
    requires a <= b
    ensures Offset(a, size) <= Offset(b, size)
    decreases b
  {
    if a < b {
      OffsetMonotone(a, b - 1, size);
    }
  }

  /** Offset(i, size) is the product i * size the script computes. */
  lemma {:induction false} OffsetIsProduct(i: nat, size: nat)
    ensures Offset(i, size) == i * size
  {
    if i > 0 {
      OffsetIsProduct(i - 1, size);
      assert i * size == (i - 1) * size + size;
    }
  }

  /** Every queue block ends with the fixed arguments, the systematics number and "queue". */
  lemma JobBlockTail(condName: string, inputList: string, output: string, uncerSys: int)
    ensures var block, tail := JobBlock(condName, inputList, output, uncerSys),
                               " " + FIXED_ARGUMENTS + " " + IntToString(uncerSys) + "\nqueue\n";
      |tail| <= |block| && block[|block| - |tail|..] == tail
  {
    var tail := " " + FIXED_ARGUMENTS + " " + IntToString(uncerSys) + "\nqueue\n";
    var front := "\n"
      + "log        = cond/" + condName + ".log\n"
      + "output     = cond/" + condName + ".out\n"
      + "error      = cond/" + condName + ".err\n"
      + "arguments = " + inputList + " " + output;
    assert JobBlock(condName, inputList, output, uncerSys) == front + tail;
  }

  /** Entry i of Parts is part i. */
  lemma {:induction false} PartsAt(lines: seq<string>, k: nat, nJobs: nat, ratioint: nat, i: nat)
    requires i < k <= nJobs && Offset(nJobs, ratioint) <= |lines|
    ensures Parts(lines, k, nJobs, ratioint)[i] == Part(lines, i, nJobs, ratioint)
  {
    if i < k - 1 {
      PartsAt(lines, k - 1, nJobs, ratioint, i);
    }
  }

  /** The lines of the part files are the parts. */
  lemma PartFilesHoldParts(lines: seq<string>, inFiles: string, k: nat, nJobs: nat, ratioint: nat)
    requires k <= nJobs && Offset(nJobs, ratioint) <= |lines|
    ensures Contents(PartFiles(lines, inFiles, k, nJobs, ratioint)) == Parts(lines, k, nJobs, ratioint)
  {
    var held := Contents(PartFiles(lines, inFiles, k, nJobs, ratioint));
    var parts := Parts(lines, k, nJobs, ratioint);
    forall i | 0 <= i < k
      ensures held[i] == parts[i]
    {
      PartsAt(lines, k, nJobs, ratioint, i);
    }
  }

  /** The first k parts, flattened, are the lines before Offset(k) (k below the last part). */
  lemma {:induction false} PartsPrefix(lines: seq<string>, k: nat, nJobs: nat, ratioint: nat)
    requires k < nJobs && Offset(nJobs, ratioint) <= |lines|
    ensures Offset(k, ratioint) <= |lines|
    ensures Flatten(Parts(lines, k, nJobs, ratioint)) == lines[..Offset(k, ratioint)]
  {
    OffsetMonotone(k, nJobs, ratioint);
    if k > 0 {
      PartsPrefix(lines, k - 1, nJobs, ratioint);
      FlattenSnoc(Parts(lines, k - 1, nJobs, ratioint), Part(lines, k - 1, nJobs, ratioint));
      assert lines[..Offset(k - 1, ratioint)] + lines[Offset(k - 1, ratioint)..Offset(k, ratioint)]
          == lines[..Offset(k, ratioint)];
    }
  }

  /** The parts, in order, are exactly the input list: every line lands in exactly one part. */
  lemma PartsCoverLines(lines: seq<string>, nJobs: nat, ratioint: nat)
    requires 0 < nJobs && Offset(nJobs, ratioint) <= |lines|
    ensures Flatten(Parts(lines, nJobs, nJobs, ratioint)) == lines
  {
    PartsPrefix(lines, nJobs - 1, nJobs, ratioint);
    FlattenSnoc(Parts(lines, nJobs - 1, nJobs, ratioint), Part(lines, nJobs - 1, nJobs, ratioint));
    assert lines[..Offset(nJobs - 1, ratioint)] + lines[Offset(nJobs - 1, ratioint)..] == lines;
  }

  /** Every part but the last holds ratioint lines; the last holds the rest, at least ratioint. */
  lemma PartSizes(lines: seq<string>, i: nat, nJobs: nat, ratioint: nat)
    requires i < nJobs && Offset(nJobs, ratioint) <= |lines|
    ensures i < nJobs - 1 ==> |Part(lines, i, nJobs, ratioint)| == ratioint
    ensures i == nJobs - 1 ==> |Part(lines, i, nJobs, ratioint)| == |lines| - Offset(nJobs - 1, ratioint) >= ratioint
  {
    OffsetMonotone(i + 1, nJobs, ratioint);
  }

  /**
   * With the files per job the script computes, the last part holds ratioint
   * lines plus the remainder of the division, fewer than ratioint + nJobs.
   */
  lemma LastPartTakesRemainder(numLines: nat, nJobs: nat)
    requires nJobs > 0 && FilesPerJob(numLines, nJobs).Success?
    ensures var ratioint := FilesPerJob(numLines, nJobs).value;
      && Offset(nJobs, ratioint) <= numLines
      && numLines - Offset(nJobs - 1, ratioint) == ratioint + numLines % nJobs < ratioint + nJobs
  {
    var ratioint := FilesPerJob(numLines, nJobs).value;
    OffsetIsProduct(nJobs, ratioint);
    assert numLines == nJobs * ratioint + numLines % nJobs;
  }
}
