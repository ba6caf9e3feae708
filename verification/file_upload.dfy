/**
 Uploaded-file text extraction (`backend/connectors/file_upload.py`):
 dispatch on the lower-cased file name, and the assembly and stripping of the
 text the PDF, DOCX and plain-text readers produce. The PDF and DOCX parsers
 and the UTF-8 decoder are foreign code and are passed in as functions;
 Latin-1 decoding, which maps every byte to the code point of the same
 value, is written out.
 */
module FileUpload {
  import opened Wrappers
  import opened Text

  newtype Byte = b: int | 0 <= b < 256

  type Bytes = seq<Byte>

  /** The supported kinds of upload and the type name `process_file` reports for each. */
  datatype FileType = Pdf | Docx | Txt {
    function Name(): string {
      match this
      case Pdf => "PDF"
      case Docx => "DOCX"
      case Txt => "TXT"
    }

    /** The lower-case file-name ending that selects this kind. */
    function Suffix(): string {
      match this
      case Pdf => ".pdf"
      case Docx => ".docx"
      case Txt => ".txt"
    }
  }

  const UnsupportedMessage: string := "Unsupported file type. Please upload PDF, DOCX, or TXT files."

  /**
    The foreign readers: the text of every PDF page, the text of every DOCX
    paragraph (each either the list or the message of the exception raised
    while parsing), and a strict UTF-8 decoder (`None` on a decode error).
   */
  datatype Readers = Readers(
    pdfPages: Bytes -> Result<seq<string>, string>,
    docxParagraphs: Bytes -> Result<seq<string>, string>,
    decodeUtf8: Bytes -> Option<string>)

  /** What `process_file` returns: the extracted text and the type name. */
  datatype Processed = Processed(text: string, fileType: string)

  // ---------------------------------------------------------------------------
  // The three extractors
  // ---------------------------------------------------------------------------

  /** The loop `text += page.extract_text() + "\n"`: every page followed by a newline. */
  function PageText(pages: seq<string>): (t: string)
    ensures |t| == SumLengths(pages) + |pages|
  {
    if |pages| == 0 then "" else pages[0] + "\n" + PageText(pages[1..])
  }

  /** The page loop over two runs of pages is the two texts one after the other. */
  lemma {:induction false} PageTextAppend(a: seq<string>, b: seq<string>)
    ensures PageText(a + b) == PageText(a) + PageText(b)
  {
    if |a| > 0 {
      assert (a + b)[1..] == a[1..] + b;
      PageTextAppend(a[1..], b);
    } else {
      assert a + b == b;
    }
  }

  /** Pages without line boundaries can be read back from the accumulated text line by line. */
  lemma {:induction false} PageTextLines(pages: seq<string>)
    requires forall i :: 0 <= i < |pages| ==> NoLineBreak(pages[i])
    ensures SplitLines(PageText(pages)) == pages
  {
    if |pages| > 0 {
      PageTextLines(pages[1..]);
      SplitLinesAfterLine(pages[0], PageText(pages[1..]));
    }
  }

  /** A line without boundaries followed by `"\n"` splits off as the first line. */
  lemma SplitLinesAfterLine(p: string, rest: string)
    requires NoLineBreak(p)
    ensures SplitLines(p + "\n" + rest) == [p] + SplitLines(rest)
  {
    var s := p + "\n" + rest;
    LineLenOfLine(p, "\n" + rest);
    assert s == p + ("\n" + rest);
    assert s[..|p|] == p;
    assert s[|p|] == '\n';
    assert s[|p| + 1..] == rest;
  }

  /** `extract_text_from_pdf(file_bytes)`. */
  function ExtractPdf(bytes: Bytes, readers: Readers): (r: Result<string, PyError>)
    ensures r.Success? <==> readers.pdfPages(bytes).Success?
    ensures r.Success? ==> IsStripOf(r.value, PageText(readers.pdfPages(bytes).value))
    ensures r.Failure? ==> r.error == ValueError("Error reading PDF: " + readers.pdfPages(bytes).error)
  {
    match readers.pdfPages(bytes)
    case Success(pages) => Success(Strip(PageText(pages)))
    case Failure(e) => Failure(ValueError("Error reading PDF: " + e))
  }

  /** `extract_text_from_docx(file_bytes)`. */
  function ExtractDocx(bytes: Bytes, readers: Readers): (r: Result<string, PyError>)
    ensures r.Success? <==> readers.docxParagraphs(bytes).Success?
    ensures r.Success? ==> IsStripOf(r.value, Join(readers.docxParagraphs(bytes).value, "\n"))
    ensures r.Failure? ==> r.error == ValueError("Error reading DOCX: " + readers.docxParagraphs(bytes).error)
  {
    match readers.docxParagraphs(bytes)
    case Success(paragraphs) => Success(Strip(Join(paragraphs, "\n")))
    case Failure(e) => Failure(ValueError("Error reading DOCX: " + e))
  }

  /** `file_bytes.decode('latin-1')`: byte `b` becomes code point `b`. */
  function Latin1(bytes: Bytes): (s: string)
    ensures |s| == |bytes|
    ensures forall i :: 0 <= i < |bytes| ==> s[i] as int == bytes[i] as int
  {
    seq(|bytes|, i requires 0 <= i < |bytes| => bytes[i] as int as char)
  }

  /** `s.encode('latin-1')` for a text of code points below 256. */
  function Latin1Encode(s: string): Bytes
    requires forall i :: 0 <= i < |s| ==> s[i] as int < 256
  {
    seq(|s|, i requires 0 <= i < |s| => s[i] as int as Byte)
  }

  /** Latin-1 decoding loses nothing: encoding the decoded text gives the bytes back. */
  lemma Latin1RoundTrip(bytes: Bytes)
    ensures Latin1Encode(Latin1(bytes)) == bytes
  {
  }

  /**
    `extract_text_from_txt(file_bytes)`: UTF-8 first, Latin-1 only when that
    raises `UnicodeDecodeError`. Latin-1 accepts every byte sequence, so the
    inner `ValueError` branch is never taken and the extractor never fails.
   */
  function ExtractTxt(bytes: Bytes, readers: Readers): (r: Result<string, PyError>)
    ensures r.Success?
    ensures readers.decodeUtf8(bytes).Some? ==> IsStripOf(r.value, readers.decodeUtf8(bytes).value)
    ensures readers.decodeUtf8(bytes).None? ==> IsStripOf(r.value, Latin1(bytes))
  {
    match readers.decodeUtf8(bytes)
    case Some(s) => Success(Strip(s))
    case None => Success(Strip(Latin1(bytes)))
  }

  // ---------------------------------------------------------------------------
  // process_file
  // ---------------------------------------------------------------------------

  /** The `if` / `elif` chain on `filename.lower()`: `.pdf`, then `.docx`, then `.txt`. */
  function DetectType(filename: string): (t: Option<FileType>)
    ensures t.Some? ==> EndsWith(Lower(filename), t.value.Suffix())
  {
    var lower := Lower(filename);
    if EndsWith(lower, ".pdf") then Some(Pdf)
    else if EndsWith(lower, ".docx") then Some(Docx)
    else if EndsWith(lower, ".txt") then Some(Txt)
    else None
  }

  /** The extractor the `if` / `elif` chain calls for a file of type `t`. */
  function Extract(t: FileType, bytes: Bytes, readers: Readers): (r: Result<string, PyError>)
    ensures r.Success? ==> r.value == "" || (!IsSpace(r.value[0]) && !IsSpace(r.value[|r.value| - 1]))
  {
    match t
    case Pdf => ExtractPdf(bytes, readers)
    case Docx => ExtractDocx(bytes, readers)
    case Txt => ExtractTxt(bytes, readers)
  }

  /**
    `r` passes on what the extractor gave: it succeeds exactly when the
    extractor does, with the extracted text, and otherwise fails with the
    extractor's error.
   */
  predicate Dispatched(r: Result<Processed, PyError>, extracted: Result<string, PyError>) {
    && (r.Success? <==> extracted.Success?)
    && (r.Success? ==> r.value.text == extracted.value)
    && (r.Failure? ==> r.error == extracted.error)
  }

  /** `process_file(filename, file_bytes)`. */
  function ProcessFile(filename: string, bytes: Bytes, readers: Readers): (r: Result<Processed, PyError>)
    ensures DetectType(filename).None? ==> r == Failure(ValueError(UnsupportedMessage))
    ensures r.Success? ==> DetectType(filename).Some? && r.value.fileType == DetectType(filename).value.Name()
    ensures r.Success? ==> r.value.text == "" || (!IsSpace(r.value.text[0]) && !IsSpace(r.value.text[|r.value.text| - 1]))
    ensures DetectType(filename) == Some(Pdf) ==> Dispatched(r, ExtractPdf(bytes, readers))
    ensures DetectType(filename) == Some(Docx) ==> Dispatched(r, ExtractDocx(bytes, readers))
    ensures DetectType(filename) == Some(Txt) ==> Dispatched(r, ExtractTxt(bytes, readers))
  {
    match DetectType(filename)
    case Some(t) =>
      (match Extract(t, bytes, readers)
       case Success(text) => Success(Processed(text, t.Name()))
       case Failure(e) => Failure(e))
    case None => Failure(ValueError(UnsupportedMessage))
  }

  /** Lower-casing twice is lower-casing once. */
  lemma LowerIdempotent(s: string)
    ensures Lower(Lower(s)) == Lower(s)
  {
    assert forall i :: 0 <= i < |s| ==> LowerChar(LowerChar(s[i])) == LowerChar(s[i]);
  }

  /** No name ends in two of the three suffixes. */
  lemma SuffixesExclusive(s: string, t1: FileType, t2: FileType)
    requires EndsWith(s, t1.Suffix()) && EndsWith(s, t2.Suffix())
    ensures t1 == t2
  {
    var a, b := t1.Suffix(), t2.Suffix();
    assert s[|s| - 1] == a[|a| - 1] by { assert s[|s| - |a|..][|a| - 1] == s[|s| - 1]; }
    assert s[|s| - 1] == b[|b| - 1] by { assert s[|s| - |b|..][|b| - 1] == s[|s| - 1]; }
  }

  /** The type chosen is exactly the one whose suffix the lower-cased name ends in, whatever the order of the tests. */
  lemma DetectTypeIff(filename: string, t: FileType)
    ensures DetectType(filename) == Some(t) <==> EndsWith(Lower(filename), t.Suffix())
  {
    var lower := Lower(filename);
    if EndsWith(lower, t.Suffix()) && DetectType(filename) != Some(t) {
      match DetectType(filename)
      case Some(t') => SuffixesExclusive(lower, t, t');
      case None =>
    }
  }

  /** Dispatch ignores the case of the ASCII letters in the name. */
  lemma ProcessFileCaseInsensitive(name1: string, name2: string, bytes: Bytes, readers: Readers)
    requires Lower(name1) == Lower(name2)
    ensures ProcessFile(name1, bytes, readers) == ProcessFile(name2, bytes, readers)
  {
  }

  /** `REPORT.PDF` is read as a PDF. */
  lemma UpperCaseExtension()
    ensures DetectType("REPORT.PDF") == Some(Pdf)
  {
    assert Lower("REPORT.PDF") == "report.pdf";
  }

  /** An unsupported name fails the same way whatever the readers would do: none of them is consulted. */
  lemma UnsupportedIgnoresReaders(filename: string, bytes: Bytes, readers1: Readers, readers2: Readers)
    requires forall t: FileType :: !EndsWith(Lower(filename), t.Suffix())
    ensures ProcessFile(filename, bytes, readers1) == ProcessFile(filename, bytes, readers2)
    ensures ProcessFile(filename, bytes, readers1).Failure?
  {
  }

  /** A text file fails only if the name is unsupported: for `.txt` names extraction always succeeds. */
  lemma TxtNeverFails(filename: string, bytes: Bytes, readers: Readers)
    requires EndsWith(Lower(filename), ".txt")
    ensures ProcessFile(filename, bytes, readers).Success?
    ensures ProcessFile(filename, bytes, readers).value.fileType == "TXT"
    ensures ProcessFile(filename, bytes, readers).value.text == ExtractTxt(bytes, readers).value
  {
    DetectTypeIff(filename, Txt);
  }
}
