/**
 The single-file converter: `convert_pdf_to_text.py <pdf_file> [output_file]` writes the
 PDF's text next to it (same name, `.txt` suffix) or to the given output path.
 */
module ConvertPdfToText {
  import opened Outcomes
  import Paths
  import opened PdfText

  /** Why a conversion gave up. */
  datatype Refusal = PdfNotFound | NoTextFound | Raised(message: string)

  /** `str(Path(pdf_path).with_suffix('.txt'))`. */
  function DefaultOutput(pdfPath: string): Result<string, string> {
    Paths.WithSuffix(pdfPath, ".txt")
  }

  /**
   `convert_pdf_to_text` (convert_pdf_to_text.py lines 49-89) with the given blank test.
   The default output path is only computed once text has been found, and a `ValueError`
   from it is caught like any other exception.
   */
  function ConvertWith(test: BlankTest, lib: Library, pdfPath: string, outputPath: Option<string>,
                       file: PdfFile, writeError: Option<string>): (r: Result<Written, Refusal>)
    ensures file.Missing? <==> r == Failure(PdfNotFound)
    ensures r.Success? <==> (file.Readable? && ExtractText(lib, file.pages).Success?
                             && !FindsNoText(test, file.pages)
                             && (outputPath.Some? || DefaultOutput(pdfPath).Success?) && writeError.None?)
    ensures r.Success? ==> r.value.text == PlumberText(file.pages)
    ensures r.Success? && outputPath.Some? ==> r.value.path == outputPath.value
    ensures r.Success? && outputPath.None? ==> r.value.path == DefaultOutput(pdfPath).value
  {
    match file
    case Missing => Failure(PdfNotFound)
    case Unreadable(m) => Failure(Raised(m))
    case Readable(pages) =>
      match ExtractText(lib, pages)
      case Failure(e) => Failure(Raised(e))
      case Success(text) =>
        ExtractionIsPlumberText(lib, pages);
        if FindsNoText(test, pages) then Failure(NoTextFound)
        else
          var target := if outputPath.Some? then Success(outputPath.value) else DefaultOutput(pdfPath);
          match target
          case Failure(e) => Failure(Raised(e))
          case Success(out) =>
            match writeError
            case Some(e) => Failure(Raised(e))
            case None => Success(Written(out, text))
  }

  /** The conversion with the intended blank test, as the command line uses it. */
  function Convert(lib: Library, pdfPath: string, outputPath: Option<string>,
                   file: PdfFile, writeError: Option<string>): (r: Result<Written, Refusal>)
    ensures file.Readable? && ExtractText(lib, file.pages).Success? && NothingExtracted(file.pages)
      ==> r == Failure(NoTextFound)
    ensures r.Success? ==> file.Readable? && !NothingExtracted(file.pages)
  {
    if file.Readable? then FindsNoTextSpec(file.pages); ConvertWith(OnPageText, lib, pdfPath, outputPath, file, writeError)
    else ConvertWith(OnPageText, lib, pdfPath, outputPath, file, writeError)
  }

  /**
   With the blank test as written, a readable PDF of at least one page is never refused
   for lack of text, even when none of its pages yields any.
   */
  lemma AsWrittenNeverFindsNoText(lib: Library, pdfPath: string, outputPath: Option<string>,
                                  pages: Pages, writeError: Option<string>)
    requires pages != []
    ensures ConvertWith(OnAssembledText, lib, pdfPath, outputPath, Readable(pages), writeError) != Failure(NoTextFound)
  {
    FindsNoTextSpec(pages);
  }

  /**
   `main` (lines 92-104) with the given blank test: `argv[0]` is the script; without a
   PDF argument the exit code is 1; otherwise the optional second argument is the output
   path and the exit code is 0 exactly when the conversion succeeds. With
   `OnAssembledText` this is the script as written.
   */
  function CommandLine(test: BlankTest, lib: Library, argv: seq<string>, file: PdfFile, writeError: Option<string>): (exitCode: int)
    ensures exitCode in {0, 1}
    ensures |argv| < 2 ==> exitCode == 1
    ensures |argv| >= 2 ==> (exitCode == 0 <==>
      (file.Readable? && ExtractText(lib, file.pages).Success? && !FindsNoText(test, file.pages)
       && (|argv| > 2 || DefaultOutput(argv[1]).Success?) && writeError.None?))
    ensures (|argv| >= 2 && file.Readable? && file.pages != [] && ExtractText(lib, file.pages).Success?
             && NothingExtracted(file.pages) && (|argv| > 2 || DefaultOutput(argv[1]).Success?) && writeError.None?)
      ==> (exitCode == 0 <==> test == OnAssembledText)
  {
    if |argv| < 2 then 1
    else
      var outputPath := if |argv| > 2 then Some(argv[2]) else None;
      if file.Readable? then FindsNoTextSpec(file.pages);
        if ConvertWith(test, lib, argv[1], outputPath, file, writeError).Success? then 0 else 1
      else if ConvertWith(test, lib, argv[1], outputPath, file, writeError).Success? then 0 else 1
  }

  /** Without an output argument, the text lands beside the PDF with a `.txt` suffix. */
  lemma DefaultOutputBesideThePdf(lib: Library, pdfPath: string, file: PdfFile)
    requires Convert(lib, pdfPath, None, file, None).Success?
    ensures var out := Convert(lib, pdfPath, None, file, None).value.path;
      Paths.DirPrefix(out) == Paths.DirPrefix(pdfPath)
      && Paths.Suffix(Paths.Basename(out)) == ".txt"
      && Paths.Stem(Paths.Basename(out)) == Paths.Stem(Paths.Basename(pdfPath))
  {
    Paths.WithSuffixIdempotent(pdfPath, ".txt");
  }
}
