/**
 * The document text extractor `read_file`: it chooses a branch by the
 * file name's suffix, joins the text of a PDF's pages or decodes a text
 * file as UTF-8, and turns every failure into one of three errors.
 *
 * The PDF library and the UTF-8 decoder are parameters: `pdf` gives the
 * text extracted from each page in order (`None` for a page without
 * text), or `None` when the library raises; `decode` gives the decoded
 * text, or `None` when the bytes are not valid UTF-8.
 */
module ReadFile {
  import opened Wrappers
  import PyStr

  type Byte = bv8

  /** An uploaded file: the name it was declared with and its bytes. */
  datatype Upload = Upload(name: string, data: seq<Byte>)

  /** The three exceptions `read_file` raises. */
  datatype ReadError = UnsupportedFormat | PdfUnreadable | TxtUnreadable

  /** The message each exception carries. */
  function Message(e: ReadError): string
  {
    match e
    case UnsupportedFormat => "Unsupported file format. Only PDF and TXT are supported."
    case PdfUnreadable => "Error reading the PDF file"
    case TxtUnreadable => "Error reading TXT file"
  }

  datatype Format = Pdf | Txt | Other

  /**
   * The branch taken for a file name: `.pdf` is tested first, then `.txt`,
   * both on the lower-cased name.
   */
  function FormatOf(name: string): (f: Format)
    ensures f == Pdf <==> PyStr.EndsWithIgnoringCase(name, ".pdf")
    ensures f == Txt <==> PyStr.EndsWithIgnoringCase(name, ".txt")
    ensures f == Other <==>
      !PyStr.EndsWithIgnoringCase(name, ".pdf") && !PyStr.EndsWithIgnoringCase(name, ".txt")
  {
    PyStr.LowerEndsWith(name, ".pdf");
    PyStr.LowerEndsWith(name, ".txt");
    PyStr.EndsWithExclusive(PyStr.Lower(name), ".pdf", ".txt");
    var lowered := PyStr.Lower(name);
    if PyStr.EndsWith(lowered, ".pdf") then Pdf
    else if PyStr.EndsWith(lowered, ".txt") then Txt
    else Other
  }

  /** What one page adds to the text: its extracted text and a newline, or nothing if there is none. */
  function PageText(page: Option<string>): string
  {
    if page.Some? && |page.value| > 0 then page.value + "\n" else ""
  }

  /** The text collected from all pages, in page order. */
  function PdfText(pages: seq<Option<string>>): string
  {
    if |pages| == 0 then ""
    else PdfText(pages[..|pages| - 1]) + PageText(pages[|pages| - 1])
  }

  /** The PDF branch given what the library produced. */
  function ExtractPdf(pages: Option<seq<Option<string>>>): Result<string, ReadError>
  {
    match pages
    case None => Failure(PdfUnreadable)
    case Some(ps) =>
      var text := PdfText(ps);
      if |PyStr.Strip(text)| == 0 then Failure(PdfUnreadable) else Success(text)
  }

  /** The TXT branch given what the decoder produced. */
  function ExtractTxt(decoded: Option<string>): Result<string, ReadError>
  {
    match decoded
    case None => Failure(TxtUnreadable)
    case Some(t) => Success(t)
  }

  /** What `read_file` returns or raises for an upload. */
  function Read(u: Upload, pdf: seq<Byte> -> Option<seq<Option<string>>>, decode: seq<Byte> -> Option<string>)
    : Result<string, ReadError>
  {
    match FormatOf(u.name)
    case Pdf => ExtractPdf(pdf(u.data))
    case Txt => ExtractTxt(decode(u.data))
    case Other => Failure(UnsupportedFormat)
  }

  /** `read_file` as written: the page loop accumulates the text with `+=`. */
  method ReadUpload(u: Upload, pdf: seq<Byte> -> Option<seq<Option<string>>>, decode: seq<Byte> -> Option<string>)
    returns (r: Result<string, ReadError>)
    ensures r == Read(u, pdf, decode)
  {
    var lowered := PyStr.Lower(u.name);
    if PyStr.EndsWith(lowered, ".pdf") {
      var pages := pdf(u.data);
      if pages.None? {
        return Failure(PdfUnreadable);
      }
      var ps := pages.value;
      var text := "";
      for i := 0 to |ps|
        invariant text == PdfText(ps[..i])
      {
        var extracted := ps[i];
        if extracted.Some? && |extracted.value| > 0 {
          text := text + extracted.value + "\n";
        }
        assert ps[..i + 1][..i] == ps[..i];
      }
      assert ps[..|ps|] == ps;
      if |PyStr.Strip(text)| == 0 {
        return Failure(PdfUnreadable);
      }
      return Success(text);
    } else if PyStr.EndsWith(lowered, ".txt") {
      var decoded := decode(u.data);
      if decoded.None? {
        return Failure(TxtUnreadable);
      }
      return Success(decoded.value);
    } else {
      return Failure(UnsupportedFormat);
    }
  }

  /** Adding one page at the end adds that page's contribution at the end. */
  lemma PdfTextSnoc(pages: seq<Option<string>>, page: Option<string>)
    ensures PdfText(pages + [page]) == PdfText(pages) + PageText(page)
  {
    var all := pages + [page];
    assert all[..|all| - 1] == pages;
    assert all[|all| - 1] == page;
  }

  /** A non-empty sequence is its front followed by its last element. */
  lemma SplitLast<T>(s: seq<T>)
    requires |s| > 0
    ensures s == s[..|s| - 1] + [s[|s| - 1]]
  {
  }

  /** Appending an element after a concatenation regroups. */
  lemma AppendSnoc<T>(a: seq<T>, b: seq<T>, x: T)
    ensures a + (b + [x]) == (a + b) + [x]
  {
  }

  /** A sequence is what precedes index `k`, the element at `k`, and what follows. */
  lemma SplitAt<T>(s: seq<T>, k: nat)
    requires k < |s|
    ensures s == s[..k] + ([s[k]] + s[k + 1..])
  {
  }

  /** A document of one page has that page's contribution as its text. */
  lemma PdfTextSingle(page: Option<string>)
    ensures PdfText([page]) == PageText(page)
  {
    assert [page][..0] == [];
  }

  /** Collecting the text of two runs of pages one after the other concatenates their texts. */
  lemma {:induction false} PdfTextAppend(a: seq<Option<string>>, b: seq<Option<string>>)
    ensures PdfText(a + b) == PdfText(a) + PdfText(b)
    decreases |b|
  {
    if |b| == 0 {
      assert a + b == a;
    } else {
      var init, last := b[..|b| - 1], b[|b| - 1];
      SplitLast(b);
      AppendSnoc(a, init, last);
      PdfTextAppend(a, init);
      PdfTextSnoc(a + init, last);
      PdfTextSnoc(init, last);
      PyStr.ConcatAssoc(PdfText(a), PdfText(init), PageText(last));
    }
  }

  /**
   * Page order is kept: the text of the pages before page `k`, then page
   * `k`'s contribution, then the text of the pages after it.
   */
  lemma PdfTextAt(pages: seq<Option<string>>, k: nat)
    requires k < |pages|
    ensures PdfText(pages) == PdfText(pages[..k]) + (PageText(pages[k]) + PdfText(pages[k + 1..]))
  {
    var before, after := pages[..k], pages[k + 1..];
    SplitAt(pages, k);
    PdfTextAppend(before, [pages[k]] + after);
    PdfTextAppend([pages[k]], after);
    PdfTextSingle(pages[k]);
  }

  /** A page with no text, or with empty text, can be dropped without changing the result. */
  lemma PdfTextSkipsEmptyPage(pages: seq<Option<string>>, k: nat)
    requires k < |pages| && (pages[k].None? || |pages[k].value| == 0)
    ensures PdfText(pages) == PdfText(pages[..k] + pages[k + 1..])
  {
    PdfTextAt(pages, k);
    PdfTextAppend(pages[..k], pages[k + 1..]);
    assert PageText(pages[k]) + PdfText(pages[k + 1..]) == PdfText(pages[k + 1..]);
  }

  /** The collected text is empty exactly when no page produced any text. */
  lemma {:induction false} PdfTextEmptyIff(pages: seq<Option<string>>)
    ensures |PdfText(pages)| == 0 <==> forall i :: 0 <= i < |pages| ==> pages[i].None? || |pages[i].value| == 0
    decreases |pages|
  {
    if |pages| > 0 {
      var init := pages[..|pages| - 1];
      PdfTextEmptyIff(init);
      assert forall i :: 0 <= i < |init| ==> init[i] == pages[i];
    }
  }

  /** A page's contribution is whitespace only exactly when its text is (a newline is whitespace). */
  lemma PageTextBlank(page: Option<string>)
    ensures PyStr.IsBlank(PageText(page)) <==> page.None? || PyStr.IsBlank(page.value)
  {
    if page.Some? && |page.value| > 0 {
      PyStr.BlankConcat(page.value, "\n");
    }
  }

  /** The collected text is whitespace only exactly when every page's text is whitespace only. */
  lemma {:induction false} PdfTextBlankIff(pages: seq<Option<string>>)
    ensures PyStr.IsBlank(PdfText(pages)) <==>
      forall i :: 0 <= i < |pages| && pages[i].Some? ==> PyStr.IsBlank(pages[i].value)
    decreases |pages|
  {
    if |pages| > 0 {
      var init, last := pages[..|pages| - 1], pages[|pages| - 1];
      PdfTextBlankIff(init);
      assert forall i :: 0 <= i < |init| ==> init[i] == pages[i];
      PyStr.BlankConcat(PdfText(init), PageText(last));
      PageTextBlank(last);
    }
  }

  /** A name that ends neither in `.pdf` nor in `.txt`, whatever the case, is refused. */
  lemma ReadUnsupported(u: Upload, pdf: seq<Byte> -> Option<seq<Option<string>>>, decode: seq<Byte> -> Option<string>)
    ensures Read(u, pdf, decode) == Failure(UnsupportedFormat) <==>
      !PyStr.EndsWithIgnoringCase(u.name, ".pdf") && !PyStr.EndsWithIgnoringCase(u.name, ".txt")
    ensures Message(UnsupportedFormat) == "Unsupported file format. Only PDF and TXT are supported."
  {
  }

  /** A `.txt` file yields exactly its decoded content, or the TXT error when it does not decode. */
  lemma ReadTxt(u: Upload, pdf: seq<Byte> -> Option<seq<Option<string>>>, decode: seq<Byte> -> Option<string>)
    requires PyStr.EndsWithIgnoringCase(u.name, ".txt")
    ensures decode(u.data).Some? ==> Read(u, pdf, decode) == Success(decode(u.data).value)
    ensures decode(u.data).None? ==> Read(u, pdf, decode) == Failure(TxtUnreadable)
  {
  }

  /**
   * A `.pdf` file yields the collected page text exactly when the library
   * reads it and some page has text that is not all whitespace; every other
   * case is the single PDF error.
   */
  lemma ReadPdf(u: Upload, pdf: seq<Byte> -> Option<seq<Option<string>>>, decode: seq<Byte> -> Option<string>)
    requires PyStr.EndsWithIgnoringCase(u.name, ".pdf")
    ensures Read(u, pdf, decode).Failure? ==> Read(u, pdf, decode).error == PdfUnreadable
    ensures Read(u, pdf, decode).Success? <==>
      pdf(u.data).Some? &&
      exists i :: 0 <= i < |pdf(u.data).value| && pdf(u.data).value[i].Some? &&
        !PyStr.IsBlank(pdf(u.data).value[i].value)
    ensures Read(u, pdf, decode).Success? ==> Read(u, pdf, decode).value == PdfText(pdf(u.data).value)
  {
    if pdf(u.data).Some? {
      PyStr.StripEmptyIffBlank(PdfText(pdf(u.data).value));
      PdfTextBlankIff(pdf(u.data).value);
    }
  }
}
