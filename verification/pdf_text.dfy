/**
 Assembly of a PDF's text, page by page, as the two conversion scripts do it with either
 library. A page's extracted text is `None` when the library finds none. Each page
 contributes a marker line `--- Page k ---` (k counted from 1) followed by its text.
 */
module PdfText {
  import opened Outcomes
  import Text

  /** The PDF library picked at import time: PyPDF2 when installed, pdfplumber otherwise. */
  datatype Library = PyPdf2 | PdfPlumber

  /** What `extract_text()` returned for each page, in page order. */
  type Pages = seq<Option<string>>

  /**
   A PDF path as the scripts find it: absent (`os.path.exists` is false), present but
   failing to open or parse (the library raises with the given message), or read.
   */
  datatype PdfFile = Missing | Unreadable(message: string) | Readable(pages: Pages)

  /** A text file a converter wrote: its path and its contents. */
  datatype Written = Written(path: string, text: string)

  /** The marker written before page `k` (1-based). */
  function PageMarker(k: nat): (m: string)
    ensures |m| >= 14 && m[0] == '\n' && m[1] == '-'
  {
    "\n--- Page " + Text.NatToString(k) + " ---\n"
  }

  /** The pdfplumber text: each page's marker, then its text when that is non-empty. */
  function PlumberText(pages: Pages): string {
    if |pages| == 0 then ""
    else
      var last := pages[|pages| - 1];
      PlumberText(pages[..|pages| - 1]) + PageMarker(|pages|)
        + (if last.Some? && last.value != [] then last.value else "")
  }

  /** The message of the `TypeError` raised by `str + None`. */
  const NoneConcatError := "can only concatenate str (not \"NoneType\") to str"

  /** The PyPDF2 text: as pdfplumber's, except that a page without text raises. */
  function PyPdfText(pages: Pages): Result<string, string> {
    if |pages| == 0 then Success("")
    else
      var last := pages[|pages| - 1];
      match PyPdfText(pages[..|pages| - 1])
      case Failure(e) => Failure(e)
      case Success(t) =>
        if last.None? then Failure(NoneConcatError) else Success(t + PageMarker(|pages|) + last.value)
  }

  /** The extraction with the chosen library; a raised exception becomes its message. */
  function ExtractText(lib: Library, pages: Pages): Result<string, string> {
    match lib
    case PyPdf2 => PyPdfText(pages)
    case PdfPlumber => Success(PlumberText(pages))
  }

  /**
   The pdfplumber loop (convert_all_pdfs.py lines 41-50): one marker per page, then the
   page text if there is any.
   */
  method ExtractPlumber(pages: Pages) returns (text: string)
    ensures text == PlumberText(pages)
    ensures pages != [] ==> !Text.IsBlank(text)
  {
    text := "";
    var i := 0;
    while i < |pages|
      invariant 0 <= i <= |pages|
      invariant text == PlumberText(pages[..i])
    {
      text := text + PageMarker(i + 1);
      var pageText := pages[i];
      if pageText.Some? && pageText.value != [] {
        text := text + pageText.value;
      }
      assert pages[..i + 1][..i] == pages[..i];
      i := i + 1;
    }
    assert pages[..i] == pages;
    MarkersAreNotBlank(pages);
  }

  /** The PyPDF2 loop (convert_all_pdfs.py lines 30-38): a page without text raises. */
  method ExtractPyPdf(pages: Pages) returns (r: Result<string, string>)
    ensures r.Failure? <==> None in pages
    ensures r == PyPdfText(pages)
  {
    var text := "";
    var i := 0;
    while i < |pages|
      invariant 0 <= i <= |pages|
      invariant forall k :: 0 <= k < i ==> pages[k].Some?
      invariant PyPdfText(pages[..i]) == Success(text)
    {
      text := text + PageMarker(i + 1);
      if pages[i].None? {
        FailureSticks(pages, i);
        return Failure(NoneConcatError);
      }
      text := text + pages[i].value;
      assert pages[..i + 1][..i] == pages[..i];
      i := i + 1;
    }
    assert pages[..i] == pages;
    return Success(text);
  }

  /** Once a page without text is met, PyPDF2's extraction fails whatever follows. */
  lemma {:induction false} FailureSticks(pages: Pages, i: nat)
    requires i < |pages| && pages[i].None?
    requires forall k :: 0 <= k < i ==> pages[k].Some?
    ensures PyPdfText(pages) == Failure(NoneConcatError)
    decreases |pages|
  {
    if i == |pages| - 1 {
      PyPdfSucceedsWhenAllPresent(pages[..i]);
    } else {
      var front := pages[..|pages| - 1];
      assert front[i] == pages[i];
      FailureSticks(front, i);
    }
  }

  /** With every page carrying text, PyPDF2's extraction succeeds. */
  lemma {:induction false} PyPdfSucceedsWhenAllPresent(pages: Pages)
    requires forall k :: 0 <= k < |pages| ==> pages[k].Some?
    ensures PyPdfText(pages).Success?
    decreases |pages|
  {
    if |pages| > 0 {
      PyPdfSucceedsWhenAllPresent(pages[..|pages| - 1]);
    }
  }

  /**
   The two libraries agree whenever PyPDF2 succeeds: a page's text is kept exactly when
   it is present, and an empty page adds nothing either way.
   */
  lemma {:induction false} LibrariesAgree(pages: Pages)
    requires PyPdfText(pages).Success?
    ensures PyPdfText(pages).value == PlumberText(pages)
    decreases |pages|
  {
    if |pages| > 0 {
      LibrariesAgree(pages[..|pages| - 1]);
    }
  }

  /**
   A document with at least one page never yields blank text, whatever its pages hold:
   the page markers themselves are not whitespace.
   */
  lemma MarkersAreNotBlank(pages: Pages)
    ensures pages != [] ==> !Text.IsBlank(PlumberText(pages))
  {
    if pages != [] {
      var front := PlumberText(pages[..|pages| - 1]);
      var s := PlumberText(pages);
      assert s[|front| + 1] == PageMarker(|pages|)[1] == '-';
      Text.BlankIffAllSpace(s);
    }
  }

  /** Whichever library ran, a successful extraction is the pdfplumber assembly. */
  lemma ExtractionIsPlumberText(lib: Library, pages: Pages)
    requires ExtractText(lib, pages).Success?
    ensures ExtractText(lib, pages).value == PlumberText(pages)
  {
    if lib.PyPdf2? {
      LibrariesAgree(pages);
    }
  }

  /** The text of the pages alone, without markers: what the extraction actually found. */
  function PageTextOnly(pages: Pages): string {
    if |pages| == 0 then ""
    else
      var last := pages[|pages| - 1];
      PageTextOnly(pages[..|pages| - 1]) + (if last.Some? then last.value else "")
  }

  /** No page yields anything but whitespace. */
  predicate NothingExtracted(pages: Pages) {
    forall k :: 0 <= k < |pages| ==> pages[k].None? || Text.AllSpace(pages[k].value)
  }

  /** The page texts together are blank exactly when no single page yields a visible character. */
  lemma {:induction false} PageTextBlankIffNothingExtracted(pages: Pages)
    ensures Text.IsBlank(PageTextOnly(pages)) <==> NothingExtracted(pages)
    decreases |pages|
  {
    Text.BlankIffAllSpace(PageTextOnly(pages));
    if |pages| > 0 {
      var front := pages[..|pages| - 1];
      var last := pages[|pages| - 1];
      var tail := if last.Some? then last.value else "";
      PageTextBlankIffNothingExtracted(front);
      Text.BlankIffAllSpace(PageTextOnly(front));
      AllSpaceConcat(PageTextOnly(front), tail);
      assert NothingExtracted(pages) <==> NothingExtracted(front) && Text.AllSpace(tail) by {
        if NothingExtracted(front) && Text.AllSpace(tail) {
          forall k | 0 <= k < |pages|
            ensures pages[k].None? || Text.AllSpace(pages[k].value)
          {
            if k < |front| {
              assert pages[k] == front[k];
            }
          }
        }
        if NothingExtracted(pages) {
          forall k | 0 <= k < |front|
            ensures front[k].None? || Text.AllSpace(front[k].value)
          {
            assert front[k] == pages[k];
          }
        }
      }
    }
  }

  /** Whitespace-only strings are closed under concatenation, and only they compose one. */
  lemma AllSpaceConcat(a: string, b: string)
    ensures Text.AllSpace(a + b) <==> Text.AllSpace(a) && Text.AllSpace(b)
  {
    if Text.AllSpace(a + b) {
      forall i | 0 <= i < |a|
        ensures Text.IsSpace(a[i])
      {
        assert a[i] == (a + b)[i];
      }
      forall i | 0 <= i < |b|
        ensures Text.IsSpace(b[i])
      {
        assert b[i] == (a + b)[|a| + i];
      }
    }
  }

  /**
   The "no text extracted" test: as both scripts write it, on the assembled text (page
   markers included), or as they evidently intend it, on the pages' own text.
   */
  datatype BlankTest = OnAssembledText | OnPageText

  predicate FindsNoText(test: BlankTest, pages: Pages) {
    match test
    case OnAssembledText => Text.IsBlank(PlumberText(pages))
    case OnPageText => Text.IsBlank(PageTextOnly(pages))
  }

  /**
   The test as written fires only for a PDF without pages; the intended one fires exactly
   when no page yields visible text.
   */
  lemma FindsNoTextSpec(pages: Pages)
    ensures FindsNoText(OnAssembledText, pages) <==> pages == []
    ensures FindsNoText(OnPageText, pages) <==> NothingExtracted(pages)
  {
    MarkersAreNotBlank(pages);
    PageTextBlankIffNothingExtracted(pages);
    if pages == [] {
      Text.BlankIffAllSpace(PlumberText(pages));
    }
  }
}
