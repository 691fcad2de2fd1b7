/**
 The batch converter: every PDF of the working directory, in sorted order, is converted
 to text. Files whose lower-cased name mentions "defaulters", "awards" or "arbitration"
 are the defaulters list (only the last such file is converted); all others are
 contracts, written under `demo_files/gafta_contracts/` with their stem as file name.
 The directory listing and each file's behaviour are inputs.
 */
module ConvertAllPdfs {
  import opened Outcomes
  import Text
  import Paths
  import opened PdfText


  const NoTextMessage := "No text extracted (PDF might be image-based)"

  /** The message of a conversion that wrote `text`. */
  function ExtractedMessage(text: string): string {
    "Extracted " + Text.NatToString(|text|) + " characters"
  }

  /** What one `convert_pdf` call reports, and the text file it wrote, if any. */
  datatype Conversion = Conversion(outcome: Outcome, written: Option<Written>)

  /**
   `convert_pdf` (convert_all_pdfs.py lines 53-73) with the given blank test: a missing
   file, an exception while reading or writing, or no text found is a failure with its
   message and writes nothing; otherwise the text is written to `output` and its length
   reported.
   */
  function ConvertPdfWith(test: BlankTest, lib: Library, path: string, output: string,
                          file: PdfFile, writeError: Option<string>): (c: Conversion)
    ensures file.Missing? ==> c.outcome == Outcome(false, "File not found: " + path)
    ensures file.Unreadable? ==> c.outcome == Outcome(false, file.message)
    ensures c.outcome.ok <==> (file.Readable? && ExtractText(lib, file.pages).Success?
                               && !FindsNoText(test, file.pages) && writeError.None?)
    ensures file.Readable? && ExtractText(lib, file.pages).Success? && FindsNoText(test, file.pages)
      ==> c.outcome == Outcome(false, NoTextMessage)
    ensures c.outcome.ok ==> c.outcome.message == ExtractedMessage(PlumberText(file.pages))
    ensures !c.outcome.ok ==> c.written.None?
    ensures c.outcome.ok ==> c.written == Some(Written(output, PlumberText(file.pages)))
  {
    match file
    case Missing => Conversion(Outcome(false, "File not found: " + path), None)
    case Unreadable(m) => Conversion(Outcome(false, m), None)
    case Readable(pages) =>
      match ExtractText(lib, pages)
      case Failure(e) => Conversion(Outcome(false, e), None)
      case Success(text) =>
        ExtractionIsPlumberText(lib, pages);
        if FindsNoText(test, pages) then Conversion(Outcome(false, NoTextMessage), None)
        else match writeError
          case Some(e) => Conversion(Outcome(false, e), None)
          case None => Conversion(Outcome(true, ExtractedMessage(text)), Some(Written(output, text)))
  }

  /** `convert_pdf` as written: any PDF with a page and a successful extraction is written. */
  function ConvertPdfAsWritten(lib: Library, path: string, output: string,
                               file: PdfFile, writeError: Option<string>): (c: Conversion)
    ensures file.Readable? && ExtractText(lib, file.pages).Success? && file.pages != [] && writeError.None?
      ==> c == Conversion(Outcome(true, ExtractedMessage(PlumberText(file.pages))),
                          Some(Written(output, PlumberText(file.pages))))
  {
    if file.Readable? then FindsNoTextSpec(file.pages); ConvertPdfWith(OnAssembledText, lib, path, output, file, writeError)
    else ConvertPdfWith(OnAssembledText, lib, path, output, file, writeError)
  }

  /**
   `convert_pdf` with the blank test the code evidently intends: it fails with the
   image-based message, writing nothing, exactly when no page yields visible text.
   */
  function ConvertPdf(lib: Library, path: string, output: string,
                      file: PdfFile, writeError: Option<string>): (c: Conversion)
    ensures c.outcome.ok <==> (file.Readable? && ExtractText(lib, file.pages).Success?
                               && !NothingExtracted(file.pages) && writeError.None?)
    ensures file.Readable? && ExtractText(lib, file.pages).Success? && NothingExtracted(file.pages)
      ==> c == Conversion(Outcome(false, NoTextMessage), None)
  {
    if file.Readable? then FindsNoTextSpec(file.pages); ConvertPdfWith(OnPageText, lib, path, output, file, writeError)
    else ConvertPdfWith(OnPageText, lib, path, output, file, writeError)
  }

  /**
   A one-page scanned PDF, whose only page yields no text, is reported as converted by
   the code as written, and its page marker written out, while the intended check
   rejects it.
   */
  lemma ScannedPageCounterexample()
    ensures ConvertPdfAsWritten(PdfPlumber, "scan.pdf", "scan.txt", Readable([None]), None)
      == Conversion(Outcome(true, "Extracted 16 characters"), Some(Written("scan.txt", "\n--- Page 1 ---\n")))
    ensures ConvertPdf(PdfPlumber, "scan.pdf", "scan.txt", Readable([None]), None)
      == Conversion(Outcome(false, NoTextMessage), None)
  {
    ScannedPageFacts();
    var text := PlumberText([None]);
    assert ExtractedMessage(text) == "Extracted 16 characters";
    assert ConvertPdfAsWritten(PdfPlumber, "scan.pdf", "scan.txt", Readable([None]), None)
      == Conversion(Outcome(true, ExtractedMessage(text)), Some(Written("scan.txt", text)));
  }

  /** The facts about a one-page PDF with no text that the counterexample rests on. */
  lemma ScannedPageFacts()
    ensures ExtractText(PdfPlumber, [None]) == Success(PlumberText([None]))
    ensures PlumberText([None]) == "\n--- Page 1 ---\n" && |PlumberText([None])| == 16
    ensures Text.NatToString(16) == "16"
    ensures NothingExtracted([None])
  {
    var pages: Pages := [None];
    assert pages[..0] == [];
    assert Text.NatToString(1) == "1";
    assert Text.NatToString(6) == "6";
  }

  // ---------------------------------------------------------------------------
  // The batch (convert_all_pdfs.py lines 76-155)
  // ---------------------------------------------------------------------------

  const DefaultersKeywords: seq<string> := ["defaulters", "awards", "arbitration"]

  /** Whether a file name marks the defaulters list. */
  predicate IsDefaultersName(name: string) {
    exists k :: 0 <= k < |DefaultersKeywords| && Text.Contains(Text.AsciiLower(name), DefaultersKeywords[k])
  }

  /** A PDF found by the directory scan: its name and how the file behaves. */
  datatype PdfEntry = PdfEntry(name: string, file: PdfFile, writeError: Option<string>)

  /** The contract PDFs: those not named as the defaulters list, in listing order. */
  function Contracts(pdfs: seq<PdfEntry>): seq<PdfEntry> {
    if |pdfs| == 0 then []
    else
      var last := pdfs[|pdfs| - 1];
      Contracts(pdfs[..|pdfs| - 1]) + (if IsDefaultersName(last.name) then [] else [last])
  }

  /** The defaulters PDF: the last one named as such, if any. */
  function DefaultersPdf(pdfs: seq<PdfEntry>): Option<PdfEntry> {
    if |pdfs| == 0 then None
    else if IsDefaultersName(pdfs[|pdfs| - 1].name) then Some(pdfs[|pdfs| - 1])
    else DefaultersPdf(pdfs[..|pdfs| - 1])
  }

  /** How many listed PDFs are named as the defaulters list. */
  function DefaultersNamed(pdfs: seq<PdfEntry>): nat {
    if |pdfs| == 0 then 0
    else DefaultersNamed(pdfs[..|pdfs| - 1]) + (if IsDefaultersName(pdfs[|pdfs| - 1].name) then 1 else 0)
  }

  /**
   The partition loop (lines 105-110): contracts in order, the defaulters PDF the last
   match.
   */
  method Partition(pdfs: seq<PdfEntry>) returns (contracts: seq<PdfEntry>, defaulters: Option<PdfEntry>)
    ensures forall c :: c in contracts ==> c in pdfs && !IsDefaultersName(c.name)
    ensures defaulters.Some? ==> defaulters.value in pdfs && IsDefaultersName(defaulters.value.name)
    ensures contracts == Contracts(pdfs) && defaulters == DefaultersPdf(pdfs)
  {
    contracts := [];
    defaulters := None;
    var i := 0;
    while i < |pdfs|
      invariant 0 <= i <= |pdfs|
      invariant contracts == Contracts(pdfs[..i]) && defaulters == DefaultersPdf(pdfs[..i])
    {
      if IsDefaultersName(pdfs[i].name) {
        defaulters := Some(pdfs[i]);
      } else {
        contracts := contracts + [pdfs[i]];
      }
      assert pdfs[..i + 1][..i] == pdfs[..i];
      i := i + 1;
    }
    assert pdfs[..i] == pdfs;
    PartitionSound(pdfs);
  }

  /** Every PDF is either a contract or named as the defaulters list, never both. */
  lemma {:induction false} PartitionSound(pdfs: seq<PdfEntry>)
    ensures forall c :: c in Contracts(pdfs) ==> c in pdfs && !IsDefaultersName(c.name)
    ensures DefaultersPdf(pdfs).Some? ==> DefaultersPdf(pdfs).value in pdfs && IsDefaultersName(DefaultersPdf(pdfs).value.name)
    ensures |Contracts(pdfs)| + DefaultersNamed(pdfs) == |pdfs|
    ensures DefaultersPdf(pdfs).Some? <==> DefaultersNamed(pdfs) > 0
    decreases |pdfs|
  {
    if |pdfs| > 0 {
      var front := pdfs[..|pdfs| - 1];
      PartitionSound(front);
      assert forall c :: c in front ==> c in pdfs;
    }
  }

  /**
   Only one defaulters-named PDF is converted: with several, all but the last in listing
   order are dropped without being counted as failures.
   */
  lemma DroppedDefaultersPdfs(pdfs: seq<PdfEntry>)
    ensures |Contracts(pdfs)| + (if DefaultersPdf(pdfs).Some? then 1 else 0)
      == |pdfs| - (if DefaultersNamed(pdfs) > 0 then DefaultersNamed(pdfs) - 1 else 0)
  {
    PartitionSound(pdfs);
  }

  const ContractsDir := "demo_files/gafta_contracts/"
  const DefaultersOutput := "demo_files/defaulters_list.txt"

  /** Where a contract PDF's text goes (line 116). */
  function ContractOutput(name: string): string {
    ContractsDir + Paths.Stem(name) + ".txt"
  }

  /** Distinct PDF names give distinct contract outputs, as long as each is a plain `*.pdf` name. */
  lemma ContractOutputsDistinct(base1: string, base2: string)
    requires base1 != [] && base2 != [] && base1 != base2
    ensures ContractOutput(base1 + ".pdf") != ContractOutput(base2 + ".pdf")
  {
    assert ".pdf"[1..] == "pdf";
    Paths.AppendedSuffix(base1, ".pdf");
    Paths.AppendedSuffix(base2, ".pdf");
    var o1 := ContractOutput(base1 + ".pdf");
    var o2 := ContractOutput(base2 + ".pdf");
    assert o1 == ContractsDir + base1 + ".txt" && o2 == ContractsDir + base2 + ".txt";
    assert o1[|ContractsDir|..|o1| - 4] == base1;
    assert o2[|ContractsDir|..|o2| - 4] == base2;
  }

  /** One conversion to run: the PDF and the path its text is written to. */
  datatype Job = Job(source: PdfEntry, output: string)

  /** The conversions in the order they run: contracts, then the defaulters PDF. */
  function Jobs(pdfs: seq<PdfEntry>): (jobs: seq<Job>)
    ensures |jobs| == |Contracts(pdfs)| + (if DefaultersPdf(pdfs).Some? then 1 else 0)
  {
    var cs := Contracts(pdfs);
    var contractJobs := seq(|cs|, i requires 0 <= i < |cs| => Job(cs[i], ContractOutput(cs[i].name)));
    match DefaultersPdf(pdfs)
    case None => contractJobs
    case Some(d) => contractJobs + [Job(d, DefaultersOutput)]
  }

  /** Runs one job: its PDF is converted with the given blank test and written to the job's output. */
  function Run(test: BlankTest, lib: Library, job: Job): Conversion {
    ConvertPdfWith(test, lib, job.source.name, job.output, job.source.file, job.source.writeError)
  }

  /** The outcome of every job, in the order `main` runs them. */
  function Runs(test: BlankTest, lib: Library, jobs: seq<Job>): seq<Outcome> {
    seq(|jobs|, i requires 0 <= i < |jobs| => Run(test, lib, jobs[i]).outcome)
  }

  /** The text files the jobs write, in the order `main` runs them. */
  function Writes(test: BlankTest, lib: Library, jobs: seq<Job>): seq<Written> {
    if |jobs| == 0 then []
    else
      var c := Run(test, lib, jobs[|jobs| - 1]);
      Writes(test, lib, jobs[..|jobs| - 1]) + (if c.written.Some? then [c.written.value] else [])
  }

  /**
   One file is written per successful conversion, and each goes to the output path of
   the job that wrote it.
   */
  lemma {:induction false} WritesMatchSuccesses(test: BlankTest, lib: Library, jobs: seq<Job>)
    ensures |Writes(test, lib, jobs)| == Successes(Runs(test, lib, jobs))
    ensures forall w :: w in Writes(test, lib, jobs) ==> exists j :: j in jobs && w.path == j.output
    decreases |jobs|
  {
    if |jobs| > 0 {
      var front := jobs[..|jobs| - 1];
      var last := jobs[|jobs| - 1];
      WritesMatchSuccesses(test, lib, front);
      assert Runs(test, lib, jobs)[..|jobs| - 1] == Runs(test, lib, front);
      assert forall j :: j in front ==> j in jobs;
      assert last in jobs;
    }
  }

  /** What `main` ends with: exit code, counters, each conversion's outcome and the files written. */
  datatype BatchReport = BatchReport(exitCode: int, successCount: nat, failedCount: nat,
                                     results: seq<Outcome>, written: seq<Written>)

  /**
   `main` with the given blank test (`OnAssembledText` is the script as written): no
   PDFs at all is exit code 1 with nothing converted; otherwise every job runs, each is
   counted once as a success or a failure, and the exit code is 0 exactly when none
   failed.
   */
  method ConvertAll(test: BlankTest, lib: Library, pdfs: seq<PdfEntry>) returns (report: BatchReport)
    ensures pdfs == [] ==> report == BatchReport(1, 0, 0, [], [])
    ensures pdfs != [] ==> report.successCount + report.failedCount == |report.results|
    ensures pdfs != [] ==> (report.exitCode == 0 <==> report.failedCount == 0)
    ensures pdfs != [] ==> report.exitCode in {0, 1}
    ensures pdfs != [] ==> report.successCount == Successes(report.results)
    ensures pdfs != [] ==> report.results == Runs(test, lib, Jobs(pdfs))
    ensures pdfs != [] ==> report.written == Writes(test, lib, Jobs(pdfs))
  {
    if pdfs == [] {
      return BatchReport(1, 0, 0, [], []);
    }
    var jobs := Jobs(pdfs);
    var results := Runs(test, lib, jobs);
    var success, failed := Tally(results);
    report := BatchReport(if failed == 0 then 0 else 1, success, failed, results, Writes(test, lib, jobs));
  }

  /** A name shorter than every keyword cannot mark the defaulters list. */
  lemma ShortNameIsContract(name: string)
    requires |name| < 6
    ensures !IsDefaultersName(name)
  {
    forall k | 0 <= k < |DefaultersKeywords|
      ensures !Text.Contains(Text.AsciiLower(name), DefaultersKeywords[k])
    {
      Text.ContainsIffOccurs(Text.AsciiLower(name), DefaultersKeywords[k]);
    }
  }

  /**
   A directory holding one scanned single-page contract: the script as written exits 0
   and writes the page marker alone, the intended check exits 1 and writes nothing.
   */
  method ScannedBatchExitCodes() returns (asWritten: BatchReport, intended: BatchReport)
    ensures asWritten.exitCode == 0 && asWritten.written == [Written(ContractOutput("s.pdf"), "\n--- Page 1 ---\n")]
    ensures intended.exitCode == 1 && intended.written == []
  {
    var scan := PdfEntry("s.pdf", Readable([None]), None);
    ShortNameIsContract(scan.name);
    ScannedPageFacts();
    FindsNoTextSpec([None]);
    var pdfs := [scan];
    assert pdfs[..0] == [];
    assert Contracts(pdfs) == [scan] && DefaultersPdf(pdfs) == None;
    assert Jobs(pdfs) == [Job(scan, ContractOutput("s.pdf"))];
    var jobs := Jobs(pdfs);
    assert jobs[..0] == [];
    asWritten := ConvertAll(OnAssembledText, PdfPlumber, pdfs);
    intended := ConvertAll(OnPageText, PdfPlumber, pdfs);
    assert Runs(OnAssembledText, PdfPlumber, jobs) == [Outcome(true, ExtractedMessage(PlumberText([None])))];
    assert Runs(OnPageText, PdfPlumber, jobs) == [Outcome(false, NoTextMessage)];
  }
}
